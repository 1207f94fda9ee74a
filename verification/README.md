# A verified model of destor

destor is a deduplicating backup engine. Files are cut into chunks, each chunk is looked up in a
fingerprint index, and chunks that are new (or that a rewrite stage wants stored again) are packed into
containers. A recipe lists, for every chunk in order, its fingerprint, its container id and its size; a
restore replays the recipe through a container cache.

This project models that engine in Dafny and proves what it promises. Code that changes state step by step
is modelled by classes and loops and proved against functions on values; what destor promises is proved
about those functions, for every input, every run or every interleaving. A fingerprint stands for its
content: collisions are not modelled.

Check everything with `dafny verify dfyconfig.toml`.

## How the files fit together

- **Deduplication.** `DedupSpec` defines lookup, check, the write decision and the buffer update on values.
  `DedupSafety` proves the invariant of the in-flight chunks. `DedupEngine` is the imperative engine, proved
  equal to `DedupSpec`, with the source's asserts in place. `History` runs whole sequences of backups, marks
  and deletions; `ContainerMarker` is the imperative garbage collection behind its deletion step; `Driver` runs
  the engine and the garbage collection over such a sequence and carries what is proved of `History` to them.
  `ExactDedup` proves that nothing is stored twice, `RefusedAdd` that without a rewrite algorithm no container
  refuses a chunk, `Rewriting` which chunks are written again and what is left of a round of capping, and `Sampling`
  which fingerprints are indexed.
- **Concurrency.** `SyncQueue` is the bounded queue with condition waits and the threads that call it,
  `Pipeline` the three threads joined by two queues, `index_lock` and the rewrite buffer of capping,
  `Starvation` what makes them stop, `WaitThreshold` the threshold destor computes against the segments its
  segmenters make, `HandOff` the path of a container from the filter thread to the disk.
- **Restore.** `Belady` is the theory of demand-loading caches, `OptimalRestore` the cache that looks ahead in
  the access records, `Lru` and `LruRestore` the LRU cache and its simulator, `Assembly` forward assembly.
- **Chunking.** `Gf2` is polynomial arithmetic over GF(2), `Rabin` the tables and the rolling window,
  `Chunking` the cutters and the buffer loop.
- **Selection.** `Similarity` is the greedy choice of similar segments, `Capping` the capping rewrite.
- **Formats.** `Segmenting`, `Recipe` and `Prefetch` are the segments and the recipe file, `ContainerFormat`
  the container, `KvStore` the multi-valued key-value store, `LogicalIndex` that store over whole backups and
  deletions under packed segment ids, `Sds` the string printer and splitter.

## What turned out not to hold in general

- A segment id gives back its backup, offset and size exactly when the backup number is below 2^15, the offset
  below 2^32 and the size below 2^16 (`Recipe.SegmentIdDecodes`). Nothing enforces this: the ids of backup 32768
  are negative (`Recipe.BackupNumberOverflows`), and a file-defined segment of 65536 chunks has size 0
  (`Recipe.SegmentSizeOverflows`).
- FastCDC keeps its maximum chunk size exactly when the minimum is not above the maximum
  (`Chunking.FastCdcMaximum`); `start_chunk_phase` asserts this for the Rabin cutters only.
- A larger average size does not always leave FastCDC's chunks as long as they were. With the same two masks it does
  exactly when MaskS has every bit of MaskL (`Chunking.LargerAverageExactly`); of the masks in `g_condition_mask` this
  is true for average sizes from 2 KB to below 32 KB (`Chunking.DestorAverage`), and so for the default of 8 KB.
- A string printed between single quotes is read back exactly when it does not end in a backslash
  (`Sds.SingleQuotesExactly`).
- Content-defined segmenting keeps `index_segment_max` on every stream exactly when it is at least 2 and above
  `index_segment_min` (`Segmenting.MaximumKept`). The streams on which it fails otherwise are those of
  `Segmenting.MinReachesMax` and `Segmenting.MaxIsOne`; what bounds every segment is `Segmenting.AlwaysBounded`.
- With capping, the dedup, rewrite and filter threads can stop for good behind the wait threshold of
  `src/dedup_phase.c:113-118`. With fixed segments they never do exactly when the segment size does not divide the
  buffer less one (`WaitThreshold.FixedThreshold`); destor's defaults, 1024 for both, are safe. With content-defined
  segments they never do exactly when no segment sizes between minimum and maximum add up to the buffer less one
  (`WaitThreshold.ContentThreshold`). For any threshold the condition is that of `WaitThreshold.NeverStopsExactly`;
  the buffer plus a whole segment is always enough (`WaitThreshold.OneMore`).
- `src/index/kvstore_htable.c:192-195` moves later ids up after one is deleted, under an assert that holds exactly
  for the last id of an entry (`KvStore.DeleteAssert`). Under FIFO deletion the deleted id is always that one
  (`KvStore.HashTable.Delete`), so the branch never runs.

## Model

| member | source | states |
|---|---|---|
| DedupSafety.PushKeeps | src/index/index.c:206-214 | After a lookup, each queue lists exactly its copies in flight, in stream order, with the new copy's own id last, and unresolved and unique copies are only where they may be |
| DedupSafety.PushLists | src/index/index.c:206-214 | The new id stands behind the elements of the earlier copies: those that were behind the last filtered copy, with its id, then those looked up since, with their own |
| DedupSafety.LookupSegmentKeeps | src/index/index.c:140-217 | Looking a whole segment up keeps the in-flight invariant and the tables, and changes nothing but the index buffer, the cache and the marks of the segment |
| DedupSafety.LookupFinds | src/index/index.c:150-204 | A fingerprint is found if and only if it is in the storage buffer, in flight, cached or indexed; the first of these that has it gives the id, and from the last two the container found is at the front of the cache |
| DedupSafety.CheckedChunk | src/index/index.c:282-315 | After the buffer check, a duplicate still without an id has its unique copy earlier in the stream, whatever marks the rewrite stage set |
| DedupSafety.UniqueCopyIsRecent | src/filter_phase.c:119-123 | The assert that an unresolved duplicate finds its early copy among the recently unique chunks never fails |
| DedupSafety.WriteChunkKeeps | src/filter_phase.c:136-199 | A written chunk ends up with the id of a container that holds its fingerprint, and nothing stored before is lost |
| DedupSafety.FilterChunkKeeps | src/filter_phase.c:89-215 | Whatever the marks and the cache answer, the chunk leaves the write loop with an id that names an unreclaimed container holding it, and the monitor gains exactly that id |
| DedupSafety.FilterLoopKeeps | src/filter_phase.c:89-218 | The same for every prefix of a checked segment, with the content of the stream unchanged |
| DedupSafety.PopKeeps | src/index/index.c:330-346 | Filtering the oldest copy removes its element, every copy behind it now has its id, and the other queues stay |
| DedupSafety.PopSegmentKeeps | src/index/index.c:320-350 | After a filtered segment the queues list exactly the copies still in flight, in stream order, with the last ids handed on |
| DedupSafety.FilterSegmentKeeps | src/filter_phase.c:75-221 | One critical section of the filter thread keeps the whole invariant; every chunk it finishes names a container that holds it |
| DedupSafety.RefusedExactly | src/filter_phase.c:176-198 | A container refuses a chunk if and only if it is a duplicate, not denied, marked for rewriting, in the open container already, and has room there |
| DedupEngine.Engine.LookupOne | src/index/index.c:144-215 | The imperative lookup of one chunk computes the specified chunk and tables |
| DedupEngine.Engine.IndexLookup | src/index/index.c:234-258 | A segment is refused, with nothing changed, exactly when the index buffer is at its threshold; else it is looked up and the invariant holds with it in flight |
| DedupEngine.Engine.IndexCheckBuffer | src/index/index.c:282-315 | Every chunk of the segment is checked against the head of its queue |
| DedupEngine.Engine.MakeRoomFor | src/filter_phase.c:140-172 | A full container is indexed and handed over, and the next chunk has room, as `add_chunk_to_container` asserts |
| DedupEngine.Engine.IndexUpdate | src/index/index.c:266-275 | Every feature gets the new id, no other entry changes |
| DedupEngine.Engine.AddChunk | src/storage/containerstore.c:397-421 | A chunk is added once; a second time it only gets the container's id; the assert that it has room is its precondition |
| DedupEngine.Engine.FilterOne | src/filter_phase.c:89-215 | The imperative write loop body computes the specified chunk, tables and monitor (what these are: Rewriting.Written, Rewriting.NotWritten); the asserts at filter_phase.c:100 and 121 and containerstore.c:398 hold, and a refused chunk is a marked duplicate |
| DedupEngine.Engine.Filter | src/filter_phase.c:75-221 | The critical section computes the specified result from any state in which the invariant holds (what becomes of the marks: Rewriting.MarksAreRewritten), and keeps the invariant; the asserts at filter_phase.c:100, 121 and 209, index.c:302 and 330 and containerstore.c:398 hold (for the one at filter_phase.c:196-197 see RefusedAdd) |
| DedupEngine.Engine.IndexUpdateBuffer | src/index/index.c:320-356 | The segment's elements leave the buffer, the count drops by its length, "still full" is reported exactly at the threshold, the assert on the id holds, and each chunk's queue is there |
| DedupEngine.Engine.Finish | src/filter_phase.c:319-333 | The last container is indexed and handed over when the stream ends |
| History.AlwaysGood | src/filter_phase.c:32-337 | The invariant of index, containers, recipes and manifest holds after every history of backups, marks and FIFO deletions |
| History.Restorable | src/cma.c:17-139 | After every history, each backup newer than the last deleted one lists exactly what it was given, in order, and every entry names an unreclaimed container that holds the fingerprint |
| History.IndexAlive | src/do_delete.c:30-48 | After every history, no index entry names a reclaimed container or one without the fingerprint |
| History.ReclaimsExactly | src/cma.c:83-139 | Between jobs, a stored container is reclaimed if and only if no live backup refers to it |
| History.BufferMirrorsFlight | src/index/index.c:140-217 | After every history every queue of the index buffer lists exactly the copies of its fingerprint in flight, in stream order: the copies that were behind the last filtered one with its id, the others with their own; and the chunk count is their number |
| ContainerMarker.Marker.UpdateManifest | src/cma.c:17-81 | Every container of the finished job gets the job's time, the others keep theirs |
| ContainerMarker.Marker.TruncManifest | src/cma.c:83-139 | The manifest is split into what newer jobs refer to and what is to be reclaimed |
| ContainerMarker.Marker.DoDelete | src/do_delete.c:23-53 | Exactly the entries that name a reclaimed container and are in it disappear from the key-value store |
| Driver.Destor.Handle | src/do_delete.c:23-53 | Each event, carried out by the methods of the engine and of the garbage collection, has the effect the history model gives it |
| Driver.RunHistory | src/do_backup.c:32-80 | Run over any sequence of events, the engine ends in the specified state, and every backup left lists its input with entries that name unreclaimed containers of the engine holding the fingerprints |
| ExactDedup.AlwaysExact | src/index/index.c:150-212 | With every fingerprint indexed and no rewriting, one container per fingerprint holds over all histories, in-flight chunks included |
| ExactDedup.StoredAtMostOnce | src/filter_phase.c:131-198 | No fingerprint is in two unreclaimed containers, or twice in one, the open one included; its copies in flight are then duplicates |
| ExactDedup.UniqueInFlightOnce | src/index/index.c:158-169 | Of the copies of a fingerprint in flight only the first can be unique |
| RefusedAdd.OnlyMarkedRefused | src/filter_phase.c:176-198 | After every history, a chunk that a container refuses is a duplicate that was marked in flight |
| RefusedAdd.NeverRefused | src/filter_phase.c:196-197 | After every history without a rewrite algorithm, whatever containers each job inherits as sparse, no chunk is refused once the marks of har_check are in place for its segment, so the assert holds; for any sampling |
| RefusedAdd.SegmentTraces | src/har_rewrite.c:170-181 | A critical section of the filter thread on a segment so marked refuses nothing, and what the lookups keep holds of the copies behind it |
| RefusedAdd.LookupTraces | src/index/index.c:150-169 | Copies of a fingerprint in flight with ids of earlier jobs have one id, the one their queue hands out, unless that is of a container of this job by now |
| RefusedAdd.NoMarkNoRefusal | src/filter_phase.c:196-197 | The same without history-aware rewriting |
| Rewriting.Written | src/filter_phase.c:131-185 | A unique chunk, and a duplicate whose rewrite request stands, ends in the open container if that has room for it, and else in a new one while the full one is indexed and handed over; that container is then open, holds it, and is recorded for later copies |
| Rewriting.NotWritten | src/filter_phase.c:119-207 | Any other duplicate leaves the containers as they were and keeps its id, unless a copy written before in the segment gives it one |
| Rewriting.CheckRoots | src/index/index.c:292-313 | A marked duplicate of an earlier job's container is denied exactly when a copy of it is in a container of this job by now, and then gets that id |
| Rewriting.SegmentRoots | src/filter_phase.c:85-209 | In any state a job can be in, chunk i of a segment ends in a container of this job if it is marked sparse, or out of order with rewriting on and not spared by the cache-aware filter; otherwise it may keep its id |
| Rewriting.MarksAreRewritten | src/filter_phase.c:75-221 | After every history, the filter pass leaves every unique chunk, every copy of one and every marked duplicate in the containers of the current job, but for chunks marked out of order only that the switch or the cache-aware filter spares; any chunk with another id keeps it |
| Rewriting.CappedChunk | src/cap_rewrite.c:60-102 | After every history, a chunk that went through a round of capping is, after its filter pass, in a container of this job or in one of those the round chose, unless it was spared |
| Rewriting.CappedSegment | src/cap_rewrite.c:35-42 | A segment that went through a round of capping is left referring to at most as many containers of earlier jobs as the round chose, when nothing is spared |
| Sampling.SampledUniform | src/index/sampling_method.c:209-229 | The sampled fingerprints of a container are exactly those at multiples of the ratio, the first included; of distinct fingerprints as many as the number over the ratio, rounded up |
| Sampling.ClosedIsIndexed | src/filter_phase.c:150-165 | Closing a container hands it over unchanged and indexes exactly those fingerprints under its id |
| SyncQueue.SyncQueue.PushFrom | src/utils/sync_queue.c:38-46 | One critical section of a push: sleep when full, else append and wake the readers |
| SyncQueue.SyncQueue.SyncQueuePush | src/utils/sync_queue.c:27-52 | A terminated queue takes nothing; else as above |
| SyncQueue.SyncQueue.PopFrom | src/utils/sync_queue.c:62-74 | One critical section of a pop or a look at the top: NULL only when terminated and empty, sleep when empty, else the oldest item |
| SyncQueue.TopIsNext | src/utils/sync_queue.c:119-137 | A look at the top waits and ends like a pop and shows the item the next pop takes, which stays |
| SyncQueue.SyncQueue.SyncQueueTerm | src/utils/sync_queue.c:81-92 | Terminating wakes every reader |
| SyncQueue.AlwaysGood | src/utils/sync_queue.c:27-137 | In every interleaving: a sleeper on max_work means a full queue, one on min_work an empty and open one; nothing is lost, added or reordered |
| SyncQueue.Delivery | src/utils/sync_queue.c:27-92 | The consumers have a prefix of what the producer pushed, and a NULL is returned only when they have all of it |
| SyncQueue.NotBothAsleep | src/utils/sync_queue.c:38-72 | The producer and a consumer are never asleep at once |
| SyncQueue.RunThreads | src/utils/sync_queue.c:27-92 | In any interleaving of threads calling the queue in memory, no sleeper is forgotten, the consumers have a prefix of the script, and all of it once one has got a NULL |
| Pipeline.StepKeeps | src/dedup_phase.c:69-109 | Every step of the three threads keeps: whole segments in flight, in order, with chunk_num their total, and a sleeper on index_lock only while the buffer is full; with or without a rewrite buffer |
| Pipeline.SleeperLeavesWork | src/dedup_phase.c:89-94 | A dedup thread asleep on index_lock leaves a segment in flight or being filtered |
| Pipeline.Progress | src/filter_phase.c:36-66 | Until all is done, some thread can take a step, if there is no wait threshold or it leaves room for the rewrite buffer and a whole segment |
| Pipeline.EveryRunFinishes | src/cap_rewrite.c:44-107 | No run is longer than a fixed bound, and one that cannot go on has filtered every segment in order, if the threshold leaves that room |
| Pipeline.InFlightBound | src/index/index.c:236-242 | The chunks in flight stay below the threshold plus one segment, whatever the rewrite buffer |
| Starvation.NeverStuckExactly | src/index/index.c:236-242 | With a rewrite buffer and segments of any sizes up to a maximum in any order, no run of the three threads stops early if and only if there is no wait threshold or it is at least the buffer plus a whole segment |
| Starvation.StarvingRun | src/cap_rewrite.c:44-107 | On sizes that starve the filter thread, every run ends before a certain segment is looked up |
| WaitThreshold.SizesBetween | src/index/segmenting_method.c:12-114 | Segments that are not the last have from the minimum to the maximum of chunks, exactly the size when fixed |
| WaitThreshold.StopSums | src/index/index.c:236-242 | A stop before the end leaves segments in flight that fit into the buffer with a place free, and fill the index buffer with one more segment |
| WaitThreshold.StoppingRun | src/cap_rewrite.c:44-107 | Whenever sizes the segmenter makes add up like that, a file and a run on which the three threads stop before the end |
| WaitThreshold.NeverStopsExactly | src/dedup_phase.c:84-97 | For any segmenter and threshold, no run on any stream stops early if and only if there is no threshold or no sizes add up like that |
| WaitThreshold.FixedThreshold | src/dedup_phase.c:115-116 | With fixed segments the computed threshold is enough if and only if the size does not divide the buffer less one |
| WaitThreshold.ContentThreshold | src/dedup_phase.c:113-114 | With content-defined segments, the minimum below the maximum and that at least 2, it is enough if and only if no sizes from minimum to maximum add up to the buffer less one |
| WaitThreshold.FileThreshold | src/dedup_phase.c:117-118 | With file-defined segments there is no threshold, and no run stops early |
| WaitThreshold.OneMore | src/dedup_phase.c:113-118 | A threshold of the buffer plus a whole segment is always enough |
| HandOff.RetrieveFinds | src/storage/containerstore.c:307-344 | In every interleaving, a container the index names is found in the queue or, after a miss there, on disk; the id read is the id asked for and the fingerprint is in it |
| HandOff.NothingIsLost | src/storage/containerstore.c:21-44 | From the push on, a container is in the queue or on disk, unchanged; when the append thread stops, all of them are on disk and the index is true of the disk |
| HandOff.AppendMoves | src/storage/containerstore.c:24-44 | While the queue holds a container the append thread can move, so a full queue never blocks the filter thread for good |
| HandOff.KeptStays | src/storage/containerstore.c:113-126 | Each step of each thread keeps "in the queue or on disk" |
| HandOff.IndexStays | src/filter_phase.c:148-169 | Index entries stay true of pushed containers, or of the one about to be pushed; while there is one, no lookup is under way or can begin |
| Lru.LruCache.Hits | src/utils/lru_cache.c:73-88 | The first match is returned and moved to the front; the rest keeps its order |
| Lru.LruCache.InsertElem | src/utils/lru_cache.c:93-111 | The new element is first; a full cache loses its last one |
| Lru.LruCache.Kicks | src/utils/lru_cache.c:114-128 | The match nearest the tail is removed, nothing else |
| Belady.CanSwap | src/optimal_restore.c:182-232 | Exchanging a cached container for one used no later never costs a read, for any policy |
| Belady.BeladyStep | src/optimal_restore.c:182-249 | Evicting a container whose next use is no earlier than any other's keeps every budget that was enough |
| Belady.PolicyCan | src/optimal_restore.c:251-281 | Every demand-loading policy's run is a budget in this sense |
| Belady.PolicyAppend | src/optimal_restore.c:251-281 | One more access, and the cache after it, extend a run, and its reads grow by one exactly if the container was not cached |
| OptimalRestore.RecordWriter.AppendPointer | src/recipe/recipestore.c:379-390 | Runs of one container id are collapsed, across buffer flushes |
| OptimalRestore.RecordWriter.Close | src/recipe/recipestore.c:248-257 | The .records file is the id stream with equal runs collapsed, and a terminator |
| OptimalRestore.OptimalCache.WindowFill | src/optimal_restore.c:68-91 | The window holds the next records, each numbered by its position, in its id's queue |
| OptimalRestore.OptimalCache.WindowSlides | src/optimal_restore.c:115-126 | The k-th slide consumes the k-th record, the table entry it asserts is there, and the window is filled up again when it was at most half full |
| OptimalRestore.OptimalCache.Hits | src/optimal_restore.c:133-146 | The window slides when a new run of accesses starts, the answer is whether the container is cached, and a container that is found becomes the most recently used |
| OptimalRestore.OptimalCache.Candidates | src/optimal_restore.c:193-207 | Every candidate for eviction is used no earlier than any cached container, as far as the window shows; if some cached containers are not used again there, eleven of those are candidates, or all of them, and nothing else |
| OptimalRestore.OptimalCache.Evict | src/optimal_restore.c:184-232 | The victim's next use in the window is no earlier than that of any cached container; among those not used again in the window, ten others, or all others, were used more recently than it; it alone leaves the list, and cache and sorted records still agree |
| OptimalRestore.OptimalCache.KickOneOf | src/utils/lru_cache.c:114-128 | Of the candidates the least recently used one is kicked: every other was used after it |
| OptimalRestore.OptimalCache.Insert | src/optimal_restore.c:182-249 | One read, one such eviction if the cache is full, and the new container the most recently used; the source's assert holds |
| OptimalRestore.Restore | src/optimal_restore.c:251-285 | For any recipe and window, containers are read exactly when not cached, and nothing that was cached is used later, within the next half window of records, than what leaves; with a window that covers the records, the terminator left aside, no demand-loading policy with as many slots reads fewer; with a window of one record and at most eleven slots, or no bound, the reads are those of an LRU cache |
| LruRestore.StackProperty | src/utils/lru_cache.c:73-111 | A bounded cache is the front of the unbounded one, on every trace |
| LruRestore.Inclusion | src/utils/lru_cache.c:73-111 | The list for capacity k is a prefix of the list for capacity k + 1 |
| LruRestore.MissesShrink | src/restore_aware.c:45-60 | One more slot never costs more container reads |
| LruRestore.PredictionMonotone | src/restore_aware.c:45-60 | The predicted reads never grow with the cache size |
| LruRestore.RestoreAware.Update | src/restore_aware.c:45-60 | The simulator's list and ccf are those of an LRU cache on the ids seen, and ocf is the size in containers, rounded up |
| LruRestore.RestoreAware.Contains | src/restore_aware.c:62-64 | An id is reported exactly when the simulated cache holds it; an unresolved one never is |
| LruRestore.Restore | src/do_restore.c:11-66 | Every chunk is found; if no fingerprint is in two referenced containers, the reads are exactly those the simulator predicts |
| Assembly.AssemblyArea.Push | src/assembly_restore.c:100-116 | The item is appended, the size is the sum of the chunks held, and full is reported at the limit |
| Assembly.AssemblyArea.Assemble | src/assembly_restore.c:30-98 | Chunks come out in order with their stored bytes, the front is never left ready, a non-empty area loses at least one item, and a read takes one container off those still to be read for the area |
| Assembly.Restore | src/assembly_restore.c:118-188 | The output is the recipe stream, item by item, every chunk with the bytes its container stores; each container is read at least once, no chunk costs more than one read, and if the chunks do not fill the area each container is read exactly once |
| Gf2.RemainderUnique | src/chunking/rabin_chunking.c:80-122 | A remainder modulo a polynomial is unique |
| Gf2.CongProduct | src/chunking/rabin_chunking.c:172-179 | Congruent factors give congruent products |
| Rabin.PolyMult | src/chunking/rabin_chunking.c:124-156 | The two result words are the full product over GF(2) |
| Rabin.PolyMod | src/chunking/rabin_chunking.c:80-122 | The result is the remainder of the 128-bit polynomial, for every divisor other than 0 |
| Rabin.PolyMMult | src/chunking/rabin_chunking.c:172-179 | The result is the remainder of the product |
| Rabin.TRow | src/chunking/rabin_chunking.c:188-190 | A row of T is the remainder of j x^k, together with the bits that cancel |
| Rabin.Tables.CalcT | src/chunking/rabin_chunking.c:181-208 | All 256 rows of T are right |
| Rabin.Tables.constructor | src/chunking/rabin_chunking.c:215-229 | Both tables are right for every polynomial of degree 8 to 63; U is the contribution of the byte that leaves a window of 48 |
| Rabin.AppendIs | src/chunking/rabin_chunking.c:158-160 | append8 multiplies by x^8 and adds the byte, modulo the polynomial |
| Rabin.Tables.Append | src/chunking/rabin_chunking.c:158-160 | The same for the method that looks T up |
| Rabin.PolyOfTail | src/chunking/rabin_chunking.c:162-170 | Taking the first byte of a window away takes its term away |
| Rabin.DropIs | src/chunking/rabin_chunking.c:14-15 | Adding the U entry of the oldest byte to a fingerprint gives the fingerprint of the other 47 |
| Rabin.Window.Slide | src/chunking/rabin_chunking.c:9-21 | After any number of slides the ring buffer holds the last 48 bytes and the fingerprint is their polynomial's remainder |
| Rabin.Window.Hit | src/chunking/rabin_chunking.c:269-271 | The cut test is a property of the last 48 bytes alone |
| Rabin.ChunkAlgInit | src/chunking/rabin_chunking.c:239-247 | The tables of destor's own polynomial are right |
| Rabin.PtMarked | src/chunking/rabin_chunking.c:269-271 | With that polynomial a window is a cut exactly when its remainder under the mask is 0x78 |
| Chunking.RabinChunkData | src/chunking/rabin_chunking.c:249-276 | The loop, sliding the window byte by byte, returns the specified cut |
| Chunking.NormalizedRabinChunkData | src/chunking/rabin_chunking.c:283-320 | The same with its two masks |
| Chunking.TttdChunkData | src/chunking/rabin_chunking.c:327-362 | The same with its two tests and the last backup |
| Chunking.FastCdcChunkData | src/chunking/fascdc_chunking.c:98-130 | The two loops over the wrapping 64-bit hash return the specified cut |
| Chunking.RabinCut | src/chunking/rabin_chunking.c:249-276 | The cut is the first position from the minimum whose window is marked under the mask of the average size, else the maximum or the end |
| Chunking.NormalizedCut | src/chunking/rabin_chunking.c:283-320 | The cut is the first position with the stronger mark before the average size or the weaker one from there on, else the maximum or the end |
| Chunking.TttdCut | src/chunking/rabin_chunking.c:327-362 | The cut is the first position with both marks, else the last with the weaker one, else the maximum or the end |
| Chunking.MarksMove | src/chunking/rabin_chunking.c:270-271 | Past the first 48 bytes a mark depends on the 48 bytes before the position alone, in whatever file and at whatever place they stand |
| Chunking.FastCdcCut | src/chunking/fascdc_chunking.c:113-128 | The cut is the first position before the average size where the hash clears MaskS, else the first from there on where it clears MaskL, else the maximum or the end |
| Chunking.GearIsTerms | src/chunking/fascdc_chunking.c:114-115 | The hash sums up the gear values since the minimum, each times 2 to the power of the bytes behind it |
| Chunking.GearForgets | src/chunking/fascdc_chunking.c:122-123 | Once 64 bytes are in, the 64 bits of the hash are those of the last 64 bytes, whatever came before |
| Chunking.LargerAverageExactly | src/chunking/fascdc_chunking.c:113-128 | With the same two masks, a larger average size never makes the first chunk shorter, on any data and gear matrix, if and only if MaskS has every bit of MaskL |
| Chunking.DestorAverage | src/chunking/fascdc_chunking.c:42-95 | With the masks fastcdc_init selects this is so exactly for average sizes from 2 KB to below 32 KB |
| Chunking.FastCdcMaximum | src/chunking/fascdc_chunking.c:98-130 | FastCDC cuts stay within the maximum if and only if the minimum is not above it |
| Chunking.CutPrefix | src/chunk_phase.c:54-67 | With the maximum number of bytes in hand, further bytes do not change the cut, for all five cutters |
| Chunking.ChunksOfFile | src/chunk_phase.c:69-99 | The chunks make up the file, none is above the maximum, and only the last is below the minimum |
| Chunking.ChunkThread.TakeBlock | src/chunk_phase.c:58-66 | A block of at most 1 MB always fits behind what is left, and the left bytes grow by it |
| Chunking.ChunkThread.Fill | src/chunk_phase.c:56-67 | Reading goes on until a maximal chunk is in hand or the file has ended, and no byte is lost |
| Chunking.ChunkThread.ChunkFile | src/chunk_phase.c:35-101 | One file leads to exactly the chunks of its bytes between its two marks |
| Chunking.ChunkThread.Run | src/chunk_phase.c:22-108 | For every list of files in any blocks of at most 1 MB, the chunk queue receives exactly the canonical chunks |
| Chunking.SplitsDoNotMatter | src/chunk_phase.c:22-108 | The same files in other blocks lead to the same chunk queue |
| Similarity.FirstIsMaximal | src/index/similarity_detection.c:22-30 | The first of the sorted candidates has the most features left of all |
| Similarity.TrimmedRemaining | src/index/similarity_detection.c:35-43 | After trimming, every candidate has its original features minus those of the chosen ones |
| Similarity.GapRound | src/index/similarity_detection.c:109-120 | After each round the gap to every cover by k candidates has shrunk by another factor (k - 1)/k |
| Similarity.SelectTop | src/index/similarity_detection.c:85-123 | k distinct segments, or all of them, each the one with the most features left by those before it, the newest of several, cover at least a share 1 - (1 - 1/k)^k of what any k could |
| Similarity.GreedyIsUnique | src/index/similarity_detection.c:22-30 | There is only one such list of each length |
| Similarity.SimilarSegments | src/index/similarity_detection.c:53-83 | Every candidate has exactly the features mapped to it, and the assert on repeats holds |
| Similarity.EntriesDoNotRepeat | src/index/kvstore_htable.c:49-54 | The ids the store lists for a feature never repeat |
| Similarity.TopSegmentSelect | src/index/similarity_detection.c:49-126 | The whole selection, from features to prefetched segments, is greedy and near best in this sense |
| Capping.RewriteBuffer.Push | src/rewrite_phase.c:34-74 | The records stay in id order, each with the buffered duplicate bytes of its container; full is reported at the limit |
| Capping.RewriteBuffer.Pop | src/rewrite_phase.c:80-105 | The oldest chunk leaves, and a record goes with its last byte |
| Capping.TopIsHeaviest | src/cap_rewrite.c:10-32 | The first records by size weigh at least as much as those of any equally large set of containers |
| Capping.GetTop | src/cap_rewrite.c:10-35 | At most the capping level of containers, none referred to by fewer buffered bytes in total than any other choice |
| Capping.CapRound | src/cap_rewrite.c:60-102 | After a round, the last one included, the duplicates of known container that are marked are exactly those outside the containers chosen, at most the capping level of them, and the marked bytes are the least over all such choices; copies of chunks not yet written are marked |
| KvStore.NewestDecreasing | src/index/kvstore_htable.c:49-54 | The ids of an entry strictly decrease |
| KvStore.HashTable.Lookup | src/index/kvstore_htable.c:158-161 | An entry is the newest live segments with the feature, newest first, padded with TEMPORARY_ID |
| KvStore.HashTable.Update | src/index/kvstore_htable.c:163-171 | An entry for the ids s, newest first, becomes the entry for the new id and s, the oldest falling out |
| KvStore.HashTable.WriteSegment | src/index/index.c:266-275 | All entries are right for the segments with the new one added |
| KvStore.HashTable.Delete | src/index/kvstore_htable.c:173-207 | The oldest id leaves its entry, an empty entry leaves the table, and the assert on the id's place holds |
| KvStore.DeleteAssert | src/index/kvstore_htable.c:192-195 | The assert that nothing stands behind the deleted id holds if and only if it is the last of its entry |
| KvStore.HashTable.DeleteOldest | src/do_delete.c:58-63 | After the oldest segment is deleted no key keeps its id, and all entries are right for the others |
| LogicalIndex.BackupIds | src/recipe/recipestore.c:312-326 | The packed id of a segment decodes to its backup, and later segments of a backup have larger ids |
| LogicalIndex.WriteBackup | src/filter_phase.c:259-300 | Every segment of a backup enters the index under its packed id, larger than all there, and all entries are right |
| LogicalIndex.DeleteBackup | src/do_delete.c:54-67 | The segments read back from the recipe file of the oldest backup leave the index, and all entries are right for the others |
| LogicalIndex.OnlyLiveIds | src/index/kvstore_htable.c:49-54 | Every id the index has for a key decodes to a backup that is not deleted |
| LogicalIndex.LiveIsIndexed | src/filter_phase.c:259-300 | Every feature of every live segment has an entry, with the id of the segment unless newer segments take all its places |
| LogicalIndex.RunJobs | src/do_delete.c:18-67 | After any sequence of backups and FIFO deletions the entries are right for the live segments, and no key keeps an id of a deleted backup |
| Segmenting.Segmenter.SegmentFixed | src/index/segmenting_method.c:12-40 | A segment ends exactly with its size-th chunk, and no item is lost or moved |
| Segmenting.Segmenter.SegmentFileDefined | src/index/segmenting_method.c:45-70 | A segment ends exactly with its file |
| Segmenting.Segmenter.SegmentContentDefined | src/index/segmenting_method.c:73-114 | Once it has the minimum of chunks, a segment ends before a chunk whose fingerprint divides, or with the one that fills it, and nowhere else |
| Segmenting.SegmentStream | src/dedup_phase.c:69-109 | The segments handed over are those of the specified segmentation of the stream |
| Segmenting.ContentBoundaries | src/index/segmenting_method.c:89-111 | In a content-defined segment no chunk behind the minimum of others has a multiple of the segment size as its head, and after a segment that is not full the next begins with a chunk that has |
| Segmenting.FileBoundaries | src/index/segmenting_method.c:56-60 | A file-defined segment has one end of a file, as its last item; what follows the last file has none |
| Segmenting.FixedBoundaries | src/index/segmenting_method.c:22-36 | A fixed segment has its size of chunks and a chunk as its last item; the last has fewer |
| Segmenting.SegmentsFlatten | src/index/segmenting_method.c:12-114 | The segments of a stream, in order, are the stream |
| Segmenting.MaximumKept | src/index/segmenting_method.c:75-114 | Content-defined segments stay within the maximum on every stream of files if and only if it is at least 2 and above the minimum, some fingerprint dividing and some not |
| Segmenting.MinReachesMax | src/index/segmenting_method.c:75-114 | A file on which a maximum not above the minimum is exceeded |
| Segmenting.MaxIsOne | src/index/segmenting_method.c:75-114 | A file on which a maximum of 1 is exceeded |
| Segmenting.AlwaysBounded | src/index/segmenting_method.c:12-114 | The bound on segments that holds for any settings |
| Segmenting.BackupAndRead | src/index/segmenting_method.c:12-114 | Whatever the segmenter, the recipe of a stream of files reads back as that stream |
| Recipe.SegmentIdDecodes | src/recipe/recipestore.c:312-326 | A segment id, a signed 64-bit number, gives back backup, offset and size if and only if the backup is below 2^15, the offset below 2^32 and the size below 2^16 |
| Recipe.SegmentIdsGrow | src/recipe/recipestore.c:312-314 | While the parts fit their fields, ids grow with the backup and, within one, with the offset |
| Recipe.BackupNumberOverflows | src/recipe/recipestore.c:312-326 | The first id of backup 32768 is negative, decodes to another backup and sorts before all of backup 0 |
| Recipe.SegmentSizeOverflows | src/recipe/recipestore.c:312-326 | The id of a segment of 65536 chunks decodes to size 0 and the next offset |
| Recipe.BackupVersion.WriteSegment | src/filter_phase.c:223-258 | The file gains the bracketed segment, the buffer being filled to the last record, and the id names where it begins |
| Recipe.BackupVersion.WriteBackup | src/recipe/recipestore.c:330-401 | A backup's file, file entries, chunk count and segment ids are those of its segments |
| Recipe.RecipeReader.ReadNextChunkPointer | src/recipe/recipestore.c:431-464 | The next chunk record is returned, segment flags being skipped; NULL only at the end |
| Recipe.RecipeReader.ReadRecipe | src/do_restore.c:68-111 | The stream is rebuilt file by file from the file entries and the records |
| Recipe.RebuildAll | src/recipe/recipestore.c:403-464 | File entries and records together determine the stream they were taken from |
| Recipe.FileSizes | src/filter_phase.c:240-249 | Every file entry counts the chunks of its file and sums up their sizes |
| Recipe.RoundTrip | src/recipe/recipestore.c:330-464 | Writing a stream in any segments and reading it gives the stream back |
| Prefetch.TableIs | src/recipe/recipestore.c:574-585 | A segment's table finds exactly its fingerprints, each with its last record |
| Prefetch.PrefetchSegments | src/recipe/recipestore.c:522-596 | From the id of a segment whose parts fit their fields, that segment and its successors are read, as many as asked for or left, with their ids and tables |
| Prefetch.ReadAllSegments | src/recipe/recipestore.c:598-639 | Reading segment after segment gives all of them, each with the id it was written under |
| Prefetch.IdsGrow | src/recipe/recipestore.c:312-314 | The ids of a backup's segments grow in the order they were written, while their parts fit |
| ContainerFormat.IntRoundTrip | src/utils/serial.c:38-72 | Stored integers are read back |
| ContainerFormat.ByteAt | src/utils/serial.c:38-72 | Each byte of a stored integer counts by its place, the most significant first, and of one copied from memory the least significant first |
| ContainerFormat.WriteAtReads | src/storage/containerstore.c:172-180 | A block written is read back and no other block changes, also past the end of the file |
| ContainerFormat.Container.AddChunk | src/storage/containerstore.c:397-421 | The container gains the chunk's bytes under its fingerprint, or, if it was there, nothing changes |
| ContainerFormat.Container.GetChunk | src/storage/containerstore.c:364-379 | The bytes are those added under the fingerprint |
| ContainerFormat.Container.Serialise | src/storage/containerstore.c:147-166 | Header and entries fit the metadata area, in whatever order the table gives them, and the data area is unchanged |
| ContainerFormat.WriteContainer | src/storage/containerstore.c:131-180 | Container n takes the 4 MB from byte 8 + n times 4 MB on, with its metadata in the last 32 KB; an empty one is not written |
| ContainerFormat.ReadMeta | src/storage/containerstore.c:253-274 | Header and table are read back, and the assert on the id holds |
| ContainerFormat.RetrieveMeta | src/storage/containerstore.c:318-356 | The same from the metadata part of the file alone |
| ContainerFormat.RoundTrip | src/storage/containerstore.c:131-283 | A container written is read back with every chunk, and no other container in the file changes |
| Sds.CatRepr | src/utils/sds.c:552-575 | The printed form is the quoted string with every byte escaped as specified |
| Sds.EscapesAsInC | src/utils/sds.c:555-570 | A double quote, a backslash and the bytes 7 to 10 and 13 print as in a C string, other printable bytes as themselves, the rest as \x and two digits |
| Sds.TokenLoop | src/utils/sds.c:636-719 | One argument is read as specified, in all three quoting modes |
| Sds.Split | src/utils/sds.c:627-735 | The splitter computes the specified list, or nothing when quotes do not balance |
| Sds.PrintedArgsSplitBack | src/utils/sds.c:552-735 | Printing any list of byte strings, joined by spaces, and splitting the line gives the list back |
| Sds.LineSplitsBack | src/utils/sds.c:627-735 | Any arguments, each as it stands, or with its end between single quotes or printed, with any separators before, between and behind them, split back into exactly their values |
| Sds.GluedQuote | src/utils/sds.c:668-686 | If a closing quote on the line is followed by anything but a blank, nothing is returned |
| Sds.ReadBackslash | src/utils/sds.c:655-667 | Between double quotes a backslash before a byte that has no meaning of its own there stands for that byte |
| Sds.HexEitherCase | src/utils/sds.c:577-610 | Hex digits are recognised and read in either case |
| Sds.SingleQuotesExactly | src/utils/sds.c:679-693 | A text printed between single quotes, those in it escaped, is read back if and only if it does not end in a backslash; else the quotes do not balance |

## Left out

- Files, directories, pthread calls, timers, logging, statistics and option parsing: abstract files and atomic steps stand for them.
- The simulation levels (`src/destor.h`): the model is the full engine, without simulation.
- SHA-1, MD5 and the contents of the FastCDC gear table: parameters.
- AE chunking (`src/chunking/ae_chunking.c`): its `continue` skips the size test, so that it keeps no maximum and its cuts depend on what is buffered; the chunking statements do not hold for it.
- `fls32`, `fls64` and their byte table: the degree of a polynomial is defined directly.
- File boundary and segment marks in the dedup model: the source skips them everywhere in that stage.
- Chunks, containers and tables of the dedup engine are values; freeing memory and aliasing of chunk structures (such as `no_rewrite` looking at a chunk after it was pushed, `src/rewrite_phase.c:117-121`) are not modelled.
- History.Restorable: is about the physical index with one value per key and full fingerprints as keys; short keys of near-exact deduplication and the logical index are not part of it.
- History.AlwaysGood: lets the filter stage take any prefix of the chunks in flight as a segment, so that every segmenting is covered; the containers' bytes are the subject of `ContainerFormat`.
- OptimalRestore.Restore: leaves out a cache of no containers and a window of no records, for which the source takes an element of an empty list.
- Capping.RewriteBuffer.Push: leaves out chunks of size 0, whose container's record would vanish while it is still referred to; the cutters never make one (`Chunking.ChunksOfFile`).
- The similarity variant of the lookup loop (`src/index/similarity_detection.c:136-217`) around the selection, which is modelled; trimming in `close_har`; writing restored files.
- The cache-aware filter, the cfl switch, HAR, CBR and CFL: their decisions are arbitrary marks, cached ids and switch positions, so every outcome is covered and their thresholds are not stated.
- Writing a container with a chunk larger than its data area: excluded by what `start_chunk_phase` asserts.
- har_check inside `rewrite_buffer_pop` (`src/rewrite_phase.c:96-98`): its mark is any mark of the history model, and `Rewriting.CappedSegment` allows for it.
- Ties in the library's sorting: every order the comparison allows is covered.
- Pipeline.Progress: the rewrite buffer is that of capping; CBR, which passes one chunk on for each that comes once its buffer is full, and CFL, which empties it when the container changes, are not modelled here.
- Driver.RunHistory: events are carried out one at a time, each a critical section of one thread; how the threads take turns is the subject of `Pipeline` and `HandOff`.
- Pipeline.EveryRunFinishes: spurious wakeups of the dedup thread are not steps, since they could repeat for ever; `SyncQueue` has them.
- HandOff.RetrieveFinds: reads and writes of `container.pool` are single steps, each under its mutex.
- The fingerprint field of chunks returned by `get_chunk_in_container`, which the source fills from the argument's address (`src/storage/containerstore.c:376`): bytes, size and id are modelled.
- The `deleted` flag of a recipe, which the source cannot store because the file is open for reading only: a deleted backup is known by its number.
- Keys of all zero or all one bits, which sampling makes up for empty segments: not part of the deletion statements.
- ContainerFormat.IntRoundTrip: integers copied as they are in memory are taken to be little-endian.
- Overflow of byte totals and chunk counts: sizes are unbounded, except where a field's width matters.
- Loading and saving the key-value store and the manifest, the bloom filter, the FSL traces and the remaining sds functions.
