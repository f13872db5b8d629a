# AsterVec verification

A Dafny model of the storage, recovery and search code of AsterVec, a
disk-resident HNSW vector store, with proofs of what that code promises. The
model follows the code branch by branch; objects whose methods update fields are
classes, algorithms over buffers are loops, and each is proved against a plain
value: a map, a list, a set or a run of operations.

`dafny verify dfyconfig.toml` checks the whole project.

## What is modelled

| files | component |
|---|---|
| `crc32.dfy`, `oplog_format.dfy`, `oplog.dfy`, `oplog_store.dfy`, `oplog_runs.dfy` | the operation log: checksum, record format, segments, append, scan, reopen, truncation, and runs with crashes at any byte |
| `db_state.dfy`, `db_view.dfy`, `db_replay.dfy`, `db_log.dfy`, `astervec_db.dfy` | the id state machine, the write calls, recovery from the log with payload rows that have run ahead of it |
| `recovery.dfy` | from a run to the bytes of its log and back: encoding, appends, a crash, scan, decoding, replay, reopening |
| `db_concurrent.dfy`, `db_crash.dfy` | interleaved writers under per-id locks, failing ones with late abort records included, agree with the log, also when a crash stops any number of them |
| `checkpoint.dfy` | installation of a checkpoint, a crash or error after any step, fallback to the previous one |
| `paged_*.dfy` | the paged vector store: slot allocation, capped write buffers, page cache, batch reads, sync, checkpoint and reopen |
| `probe_table.dfy`, `lru_links.dfy`, `edge_cache.dfy`, `edge_cache_order.dfy` | a shard of the edge cache: probe table with backward-shift deletion, LRU links, slot arena, LEB128 payload |
| `edge_coherence.dfy` | the cached view of the graph |
| `best_first.dfy`, `search_layer.dfy`, `search_scratch.dfy` | best-first search with and without a filter, the greedy descent, epoch-stamped visited marks |
| `filter.dfy`, `filter_laws.dfy`, `filter_parser.dfy` | compilation and matching of metadata filters, and what their operators mean |
| `bulk_adjacency.dfy`, `bloom_filter.dfy`, `id_types.dfy`, `basics.dfy` | bulk adjacency, the Bloom filter in front of the update map, the id ranges, small things used throughout |

The main results, each over every input or run:

* After any run of appends with rotation, crashes that cut the last segment at
  any byte, reopenings and truncations, a scan returns exactly the whole records
  appended (`OpLogRuns.LogSurvives`).
* Recovery from any checkpoint yields the uncrashed run, with the operation in
  flight iff its record is whole (`DbLog.RecoveryIsExact`), and does so from the
  bytes of the log: records encoded, appended, rotated over segments, torn by the
  crash, scanned, decoded and replayed (`Recovery.RecoveredFromBytes`).
* Whichever way writers interleave and fail, the log tells the state
  (`DbConcurrent.WritersAgreeWithLog`), also to recovery after a crash with any
  number of operations in flight (`DbCrash.CrashAmongWriters`); and a checkpoint can
  be opened and is covered by the log at every step of installing the next
  (`Checkpoint.AlwaysRecoverable`).
* The paged store answers every run of stores, reads, checkpoints, crashes and
  fallbacks to the previous checkpoint as a plain map does (`PagedRuns.RunAll`), and
  no section of it has a page too many (`PagedAlloc.PagesNeeded`).
* The edge cache shard is a bounded list in put order, over puts and erasures
  (`EdgeCacheOrder.HoldsMostRecent`), and lookups through it never lie
  (`EdgeCoherence.RunAll`).
* Search returns the nearest of everything it evaluated, everything reachable if
  there is room, and does not depend on how vectors are read (`SearchLayer.Run`,
  `BestFirst.FindsAll`); filtered, it stops only when nothing can improve what it has,
  or at its limit (`SearchLayer.RunFiltered`).
* A compiled filter means what it says but for what the matcher's depth guard cuts
  off (`Filters.AcceptedFilterMeans`), and what its operators say is said without the
  code's comparison (`FilterLaws.OrderingOperators`).
* The degree cap of a bulk build keeps an edge iff it is among the nearest of its
  vertex, and keeps the graph symmetric iff that is so at both ends of every edge or
  at neither (`BulkAdjacency.SymmetricIff`, `BulkAdjacency.LoadLayer0`).

Where the code and what is said about it differ:

* A reinsert is mapped before its node is inserted (src/astervec_db.cc:672). If the
  insertion fails, the mapping stays in memory, but recovery does not make it:
  `DbReplay.FailedIsReplayed` says exactly when the two agree,
  `DbLog.FailedReinsertDiffers` gives an input, and `DbLog.RecoveryIsExact` holds up
  to mappings of ids without a vector, which nothing can see.
* The comment at src/astervec_bulk_build.cc:227 says the lists are symmetric; the
  degree cap before it may undo that: `BulkAdjacency.HubLosesSymmetry` gives an
  input, and `BulkAdjacency.SymmetricIff` says exactly when it does, in terms of the
  lists before the cap.
* The filter parser accepts objects down to depth 32, the matcher gives up on what
  lies below depth 32, and conjuncts of such objects do:
  `Filters.DeepFilterDiffers` gives an input, and `Filters.AcceptedFilterMeans` says
  what is decided instead. Within the guard, so with objects down to depth 30, the
  two agree.
* The comment at src/metadata.cc:43 says an empty key has an empty path; the loop
  makes it one empty part (`Filters.EmptyParts`).
* An overwrite of a stored id goes past the write buffer
  (include/disk_vector.h:1536-1543): `PagedStorage.PagedVectorStorage.Overwrite` says
  exactly when it is seen, and `PagedStorage.OverwriteUnseen` is a run on which it is
  not. The engine stores each id once.

## Model

| member | source | states |
|---|---|---|
| `Crc32.TableEntry` | include/crc32.h:22-27 | a table entry is the byte run through eight steps of the shift register |
| `Crc32.BuildTable` | include/crc32.h:20-29 | all 256 entries are so |
| `Crc32.Update` | include/crc32.h:15-34 | the table-driven loop leaves the register where feeding all bits one by one leaves it |
| `Crc32.Value` | include/crc32.h:38-41 | the one-shot value is the bit-serial reflected CRC-32 (section 8 of RFC 1952) |
| `Crc32.StepsLinear` | include/crc32.h:24-25 | any number of register steps distributes over exclusive or |
| `Crc32.TableLookup` | include/crc32.h:31-32 | one table step equals eight register steps on the byte mixed in |
| `Crc32.RegisterIsSerial` | include/crc32.h:15-34 | the register after a message equals the bit-serial definition over its bits, for every start value |
| `Crc32.TopBitEntry` | include/crc32.h:10-29 | the table entry of 0x80 is the reversed polynomial 0xEDB88320, and no bytes have checksum 0 |
| `Crc32.RegisterConcat` | include/crc32.h:15-34 | the checksum of a concatenation is that of the second part started from the register of the first |
| `Crc32.StepInjective` | include/crc32.h:24-25 | a register step loses nothing: different registers stay different |
| `Crc32.RegisterInjective` | include/crc32.h:31-32 | after equal bytes, different registers stay different |
| `Crc32.RegisterOfWord` | include/crc32.h:31-32 | four bytes fed into the register can be read as one word mixed in |
| `Crc32.BurstDetected` | include/crc32.h:15-41 | messages that differ only within four consecutive bytes have different checksums |
| `OpLogFormat.ParseOfFrame` | src/oplog.cc:149-197 | a record written by Append and followed by anything parses back to itself, field for field |
| `OpLogFormat.FrameLayout` | src/oplog.cc:154-197 | where every field of a record stands in its frame: length, checksum, lsn, operation, encoding, three ids, three fields with their lengths |
| `OpLogFormat.LeBytes` | src/oplog.cc:63-68 | numbers are little-endian: byte i is the i-th base-256 digit |
| `OpLogFormat.FrameOfParse` | src/oplog.cc:254-294 | whatever parses as a record is exactly the bytes Append would write for it |
| `OpLogFormat.ParseOfCut` | src/oplog.cc:254-266 | a record is accepted from a cut prefix iff one is accepted from the whole and lies wholly inside the cut, and it is the same record |
| `OpLogFormat.TornFrameRejected` | src/oplog.cc:256-268 | a proper prefix of a record is never accepted as one |
| `OpLogFormat.BodyBurstDetected` | src/oplog.cc:269-272 | changes within four consecutive body bytes change the checksum computed by Scan |
| `OpLogFormat.DamagedBodyRejected` | src/oplog.cc:269-272 | a record with up to four consecutive body bytes changed is rejected |
| `OpLogFormat.DamagedCrcRejected` | src/oplog.cc:260-272 | a record with its crc field changed is rejected |
| `OpLogDir.AcceptedParts` | src/oplog.cc:254-310 | a segment is, byte for byte, the frames of the records accepted from it and then bytes that do not parse |
| `OpLogDir.AcceptedUpToBad` | src/oplog.cc:254-310 | a segment's accepted records stop exactly at its first unacceptable bytes |
| `OpLogDir.AcceptedConcat` | src/oplog.cc:254-294 | bytes after a fully accepted segment add exactly the records they hold |
| `OpLogDir.AcceptedCut` | src/oplog.cc:254-310 | cut at any byte, a segment keeps exactly the records that end before the cut |
| `OpLogDir.ScanIsRun` | src/oplog.cc:243-312 | the scan loop delivers exactly the contiguous run of stored lsns from its start |
| `OpLogDir.NoByteUnaccounted` | src/oplog.cc:243-312 | scanned from its first lsn on and without a gap, a log is byte for byte the frames of the records delivered and the bytes reported dropped |
| `OpLogDir.AppendedRecord` | src/oplog.cc:199-209 | an appended record extends the directory's content by its lsn and nothing else |
| `OpLogDir.AppendedTorn` | src/oplog.cc:199-205 | a partly written record changes no content |
| `OpLogDir.NewSegment` | src/oplog.cc:130-147 | a fresh segment at the next lsn changes no content |
| `OpLogDir.DroppedStale` | src/oplog.cc:114-119 | removing segments that start at or after the next lsn removes exactly those lsns |
| `OpLogDir.DroppedCovered` | src/oplog.cc:218-230 | removing leading segments removes exactly the lsns before the first kept one |
| `OpLogDir.CutLast` | src/oplog.cc:243-312 | a cut of the last segment keeps all whole records before it |
| `OpLogDir.KeptIffWithin` | src/oplog.cc:254-294 | the k-th record of a cut segment is kept iff its last byte is |
| `OpLogStore.LogDir.Scan` | src/oplog.cc:232-313 | returns the contiguous stored records from the given lsn, the dropped bytes and whether a lsn is missing |
| `OpLogStore.LogDir.ScanSegment` | src/oplog.cc:254-306 | one segment's part of the scan, with the stop at a missing lsn |
| `OpLogStore.OpLog.Open` | src/oplog.cc:107-128 | stale segments go, the content below the next lsn stays, an empty segment named by it is current; lsn 0 is refused; whichever of creating, removing and opening fails, no record below the next lsn is lost |
| `OpLogStore.KeptSome` | src/oplog.cc:114-119 | with some of the stale segments removed and others still there, the content below the next lsn is what it was |
| `OpLogStore.OpLog.OpenSegmentLocked` | src/oplog.cc:130-147 | a new current segment named by the next lsn; or an error, with no file made or with one whose name may not survive |
| `OpLogStore.OpLog.RotateIfFull` | src/oplog.cc:187-193 | a new segment is started iff the current one has reached the segment size, before the append; a failure makes the log unusable |
| `OpLogStore.OpLog.WriteRecord` | src/oplog.cc:194-209 | the whole record, or after a failed write the segment cut back to its old size |
| `OpLogStore.OpLog.Append` | src/oplog.cc:149-210 | success adds exactly the record at the next lsn, its frame to the current segment or, that one being full, to a new one; errors add nothing; too large records and a broken log are refused |
| `OpLogStore.OpLog.LastLsn` | src/oplog.cc:212-216 | no stored record has a larger lsn, and it is itself stored whenever the current segment has a record |
| `OpLogStore.OpLog.TruncateBelow` | src/oplog.cc:218-230 | what is left is a suffix of the segments with every lsn from the given one on; on success no further segment could go: the second one starts above the lsn or there is none; on failure the first one could not be removed |
| `OpLogStore.BufferIsFrame` | src/oplog.cc:154-197 | the buffer filled field by field, with lsn and split checksum put in last, is the record's frame |
| `OpLogRuns.AppendKeeps` | src/oplog.cc:149-210 | an append, rotating or not, keeps the log's invariant |
| `OpLogRuns.CrashKeeps` | src/oplog.cc:107-147 | a crash that cuts the last segment anywhere, a scan and a reopen one past the last accepted lsn keep it |
| `OpLogRuns.TruncateKeeps` | src/oplog.cc:218-230 | truncation keeps it, and leaves no segment that lies below its lsn but the last |
| `OpLogRuns.RunKeeps` | include/oplog.h:1-40 | so does any run of appends, crashes and truncations |
| `OpLogRuns.LogSurvives` | src/oplog.cc:107-313 | after any run, a scan from any retained lsn returns exactly the whole records as appended, contiguous, never stale or torn |
| `ProbeTable.HoleStart` | include/astervec_index.h:305-311 | emptying a found slot leaves a table that is whole except for one hole |
| `ProbeTable.HoleSkip` | include/astervec_index.h:312-318 | an entry whose home lies cyclically behind the hole may stay |
| `ProbeTable.HoleMove` | include/astervec_index.h:318-322 | any other entry may move into the hole, which moves to its place |
| `ProbeTable.HoleClose` | include/astervec_index.h:314-324 | at the first empty slot the table is whole again |
| `ProbeTable.EmptyExists` | include/astervec_index.h:268-272 | a table at most half full has an empty slot, so every probe ends |
| `ProbeTable.ReachedInOrder` | include/astervec_index.h:284-291 | all slots from an entry's home to the entry are taken |
| `ProbeTable.Table.constructor` | include/astervec_index.h:265-274 | an empty table of a power of two slots, at least twice the capacity |
| `ProbeTable.Table.Probe` | include/astervec_index.h:284-301 | terminates at the key's slot or at the first empty one after its home |
| `ProbeTable.Table.Find` | include/astervec_index.h:284-291 | the value of the key, or none: a plain map lookup |
| `ProbeTable.Table.Insert` | include/astervec_index.h:293-301 | the map with the key set |
| `ProbeTable.Table.Erase` | include/astervec_index.h:305-325 | the map without the key, every other key as before, with wraparound |
| `LruLinks.LinkFrontKeeps` | include/astervec_index.h:327-333 | a slot linked at the front heads the chain, the rest follows in order, back links agree |
| `LruLinks.UnlinkKeeps` | include/astervec_index.h:335-342 | an unlinked slot leaves the chain, the rest stays in order, back links agree |
| `EdgeCache.EncodeInto` | include/astervec_index.h:199-217 | the encodings of the ids, one behind the other |
| `EdgeCache.EncodedBytes` | include/astervec_index.h:204-211 | seven bits to a byte, lowest first, the top bit on all bytes but the last, and no byte more than the number needs: unsigned LEB128 (section 7.6 of DWARF 5) |
| `EdgeCache.DecodeOne` | include/astervec_index.h:226-234 | reads back the id at the front, over all 64-bit ids |
| `EdgeCache.DecodeInto` | include/astervec_index.h:219-242 | decoding what was encoded returns the ids |
| `EdgeCache.IdTakesTenBytes` | include/astervec_index.h:204-211 | no 64-bit id takes more than ten bytes, so the shifts stay in range |
| `EdgeCache.Shard.constructor` | include/astervec_index.h:265-274 | an empty shard |
| `EdgeCache.Shard.Get` | include/astervec_index.h:110-122 | the list last put for the id, or none; nothing is reordered |
| `EdgeCache.Shard.Put` | include/astervec_index.h:124-155 | the entry comes to the front; at capacity the least recently put one goes |
| `EdgeCache.Shard.PutExisting` | include/astervec_index.h:128-133 | an entry present is overwritten and moved to the front |
| `EdgeCache.Shard.PutNew` | include/astervec_index.h:135-154 | a new entry takes an evicted, freed or fresh slot |
| `EdgeCache.Shard.EvictTail` | include/astervec_index.h:135-141 | the last of the list is dropped from table and chain, its slot is handed over |
| `EdgeCache.Shard.TakeSlot` | include/astervec_index.h:135-149 | the slot comes from the tail, the free list or the end of the arena |
| `EdgeCache.Shard.Erase` | include/astervec_index.h:157-169 | the list without the entry, the others in order |
| `EdgeCache.Shard.EraseSlot` | include/astervec_index.h:161-167 | chain, table and free list change together: chain and free list still partition the arena |
| `EdgeCache.Shard.MoveToFront` | include/astervec_index.h:344-348 | the entry is first, the others keep their order |
| `EdgeCacheOrder.LookupAfterPut` | include/astervec_index.h:124-155 | after a put, the id gives its list, the evicted one none, the others what they gave |
| `EdgeCacheOrder.LookupAfterErase` | include/astervec_index.h:157-169 | after an erase the id gives none, the others what they gave |
| `EdgeCacheOrder.HoldsMostRecent` | include/astervec_index.h:124-169 | after any puts and erasures the shard holds, in put order, the most recently put of the ids not erased since: with an entry everything put later, too |
| `EdgeCacheOrder.HoldsAsManyAsFit` | include/astervec_index.h:124-155 | after any puts that is all of them, or as many as the capacity allows |
| `PagedTiers.SetBufKeeps` | include/disk_vector.h:1013-1067 | giving a section a buffer whose earlier page is safe in the file keeps buffers and file in agreement |
| `PagedTiers.FlushKeeps` | include/disk_vector.h:965-978 | a flush puts the file in charge of the page |
| `PagedTiers.BufferedWrite` | include/disk_vector.h:1064-1067 | a record written into the buffer holding its page is what reads want, all else agrees |
| `PagedTiers.DirectWrite` | include/disk_vector.h:1286-1309 | a record written to the file for a page no buffer holds likewise |
| `PagedTiers.SeenAgrees` | include/disk_vector.h:1095-1106 | a file page with the buffer laid over it has every wanted record |
| `PagedTiers.RecacheKeeps` | include/disk_vector.h:971-977 | refreshing one cached page mends it and touches no other |
| `PagedTiers.EvictionRound` | include/disk_vector.h:1036-1051 | over the cap the queue holds another live buffer, and a round lowers the loop measure despite stale and own entries |
| `PagedTiers.SharesFillCap` | include/disk_vector.h:1031-1032 | the 64 shares of the cap add up to at most the cap and to more than a shard short of it, or are one buffer each |
| `PagedTiers.BuffersBounded` | include/disk_vector.h:1029-1053 | with every shard within its share there are no more live buffers than the cap, or than one a shard |
| `PagedTiers.EvictsOldest` | include/disk_vector.h:1038-1051 | evicting a queue's front goes on dropping other sections' buffers oldest first |
| `PagedTiers.LoadsAreCached` | include/disk_vector.h:1221-1244 | the cached pages are those in load order |
| `PagedTiers.PublishFresh` | include/disk_vector.h:1221-1244 | a page goes behind the others while there is room |
| `PagedTiers.PublishInstead` | include/disk_vector.h:1228-1244 | in a full cache the page loaded longest ago makes room (first in, first out) |
| `PagedAlloc.TakeFree` | include/disk_vector.h:1373-1378 | taking a free slot leaves lists that offer only ownerless slots |
| `PagedAlloc.TakeOpen` | include/disk_vector.h:1380-1399 | taking an open page's next slot likewise; a page that fills up is no longer open |
| `PagedAlloc.TakeFresh` | include/disk_vector.h:1402-1421 | starting a page likewise, open if it has more slots than one |
| `PagedAlloc.HandedPages` | include/disk_vector.h:1389-1395 | the slot handed out had no owner, and completeness of ownership is kept |
| `PagedAlloc.PagesNeeded` | include/disk_vector.h:1349-1422 | a section has as many pages as its slots need and not one more |
| `PagedAlloc.NoRoom` | include/disk_vector.h:1379-1399 | a section without open pages has no room on any page: none is forgotten |
| `PagedAlloc.NothingFree` | include/disk_vector.h:1349-1422 | with every slot owned the free lists are empty |
| `PagedAlloc.AllocationKeepsTiers` | include/disk_vector.h:1349-1422 | handing out slots leaves what is stored alone |
| `PagedBatch.SortByPage` | include/disk_vector.h:1795-1799 | a permutation sorted by page |
| `PagedBatch.UniquePages` | include/disk_vector.h:1801-1808 | the pages of the misses, each once, in page order |
| `PagedIds.AssignIds` | include/disk_vector.h:670-698 | publishing a new id at an unowned slot keeps ids and slots in one-to-one correspondence |
| `PagedIds.AssignRecords` | include/disk_vector.h:1529-1572 | and adds exactly that id's record to the stored map |
| `PagedIds.ReassignRecords` | include/disk_vector.h:1534-1543 | another record in the slot of one id changes that id's record only |
| `PagedReopen.FreeInHas` | include/disk_vector.h:2090-2107 | the rebuilt free list offers a slot iff it is below the used slots of a page of the section and no id of either map has it |
| `PagedReopen.FreeInOnce` | include/disk_vector.h:2090-2107 | and no slot twice |
| `PagedReopen.RebuiltListsOk` | include/disk_vector.h:2090-2107 | for a store without ownerless slots the rebuilt lists offer exactly the room on its pages |
| `PagedReopen.DescribedInUse` | include/disk_vector.h:2052-2088 | the slots marked from both location maps are exactly the owned ones |
| `PagedReopen.KeyIndexOk` | include/disk_vector.h:2021-2024 | distinct section keys index back to where they stand |
| `PagedReopen.MarkInUse` | include/disk_vector.h:2052-2088 | refuses iff a direct id lies outside the used slots; update ids that do are skipped |
| `PagedReopen.ReadPages` | include/disk_vector.h:1963-1975 | refuses iff a page claims more slots than fit |
| `PagedReopen.RebuildLists` | include/disk_vector.h:2090-2107 | open pages and free slots per section, in page order |
| `PagedStorage.PagedVectorStorage.constructor` | include/disk_vector.h:740-765 | an empty store over an existing file, well formed |
| `PagedStorage.PagedVectorStorage.FlushSectionWriteBuf` | include/disk_vector.h:965-978 | writes the buffer's page and refreshes its cached copy |
| `PagedStorage.PagedVectorStorage.UpdateCacheAfterWrite` | include/disk_vector.h:1315-1327 | puts the record into the cached copy, if there is one |
| `PagedStorage.PagedVectorStorage.EvictFront` | include/disk_vector.h:1038-1050 | the queue's front entry goes, its buffer if any is flushed and dropped |
| `PagedStorage.PagedVectorStorage.EvictOverCap` | include/disk_vector.h:1031-1053 | terminates with the shard within its share, every live buffer queued and the section's own buffer kept; of the others exactly the oldest go, no more than needed, and no other shard is touched |
| `PagedStorage.PagedVectorStorage.AddBuffer` | include/disk_vector.h:1013-1053 | a section's new buffer is queued behind the others and the oldest over the share go; without a cap nothing goes |
| `PagedStorage.PagedVectorStorage.StartBuffer` | include/disk_vector.h:1009-1064 | a zeroed buffer for the section's new page; the earlier page is flushed first |
| `PagedStorage.PagedVectorStorage.WriteToSectionBuffer` | include/disk_vector.h:996-1082 | writes through the buffer, or refuses exactly a mid-page write to a page the buffer does not hold |
| `PagedStorage.PagedVectorStorage.WriteHeld` | include/disk_vector.h:1066-1080 | the record is wanted from here on; a full page is flushed and its buffer dropped |
| `PagedStorage.PagedVectorStorage.WriteRecord` | include/disk_vector.h:1286-1327 | file and cache get the record; that is what reads find unless a buffer holds the page |
| `PagedStorage.PagedVectorStorage.TryReadFromWriteBuf` | include/disk_vector.h:1109-1121 | a hit iff a buffer holds the page, with the record wanted; the zero counter is a safe shortcut |
| `PagedStorage.PagedVectorStorage.TryReadFromCache` | include/disk_vector.h:1250-1264 | a hit iff the page is cached, with the record wanted |
| `PagedStorage.PagedVectorStorage.LoadPageToCache` | include/disk_vector.h:1176-1244 | loads file page and overlay into the cache behind the pages loaded before; in a full cache the one loaded first goes |
| `PagedStorage.PagedVectorStorage.AllocateSlotForSection` | include/disk_vector.h:1349-1422 | the section's next slot, which nobody owns: the free slot listed last, else the next one of its page with room, else slot 0 of a new page, and that only when all its pages are full |
| `PagedStorage.PagedVectorStorage.OneOwner` | include/disk_vector.h:1349-1422 | every slot below a page's used slots has exactly one owner, direct or update id, no free list offers any, and of a section's pages all but the last are full |
| `PagedStorage.PagedVectorStorage.PlaceRecord` | include/disk_vector.h:1545-1567 | the record is wanted at the next slot of its section, which nobody had |
| `PagedStorage.PagedVectorStorage.StoreEncoded` | include/disk_vector.h:1529-1572 | the stored map with the new id added, on the next slot of the section with the given key; no slot changes hands and nothing synced is lost |
| `PagedStorage.PagedVectorStorage.Overwrite` | include/disk_vector.h:1534-1543 | an overwrite past the buffer is seen iff no buffer holds the page or the record is the same; then the map has the new record; otherwise the buffer keeps the old one |
| `PagedStorage.OverwriteUnseen` | include/disk_vector.h:1534-1543 | a concrete run: 1 is stored on a page still in a buffer, 2 over it, and 1 is read back |
| `PagedStorage.PagedVectorStorage.ReadVector` | include/disk_vector.h:1599-1652 | the record stored for the id, whichever tier it comes from; unless a buffer had it, its page is then in the cache |
| `PagedStorage.PagedVectorStorage.ReadVectorsBatchFlat` | include/disk_vector.h:1724-1834 | every record of a batch, in place; refuses iff an id has no slot; of the pages neither buffered nor cached each is loaded once, in page order, and no other |
| `PagedStorage.PagedVectorStorage.ReadBuffered` | include/disk_vector.h:1737-1756 | pass 1a: answers from buffers, everything else is a miss on a page no buffer holds |
| `PagedStorage.PagedVectorStorage.ReadCached` | include/disk_vector.h:1771-1792 | pass 1b: answers from the cache, the rest stays missing |
| `PagedStorage.PagedVectorStorage.ReadLoaded` | include/disk_vector.h:1814-1833 | pass 2: the rest from loaded pages or the file |
| `PagedStorage.PagedVectorStorage.FlushWrites` | include/disk_vector.h:1486-1498 | no buffers are left and the file has every record |
| `PagedStorage.PagedVectorStorage.SyncData` | include/disk_vector.h:1585-1596 | if the sync succeeds, every record is saved; the map is unchanged either way |
| `PagedStorage.PagedVectorStorage.SerializeMetadata` | include/disk_vector.h:1858-1928 | the metadata describes the store |
| `PagedStorage.PagedVectorStorage.DeserializeMetadata` | include/disk_vector.h:1930-2117 | refuses exactly bad metadata; over a file with the saved records the store is back, with all its slots owned |
| `PagedRuns.DoCrash` | include/disk_vector.h:1930-2117 | after a crash the store is the last checkpoint's, or by the metadata of the one before that one's, whatever was written to the file since |
| `PagedRuns.RunAll` | include/disk_vector.h:996-2117 | over any run of first stores, single and batch reads, checkpoints, crashes and fallbacks to the previous checkpoint every answer is a plain map's |
| `DbState.CompleteIs` | src/astervec_db.cc:669-697 | the effects of a write, one after the other, amount to its effect in one piece |
| `DbState.FreshId` | include/astervec_index.h:631-641 | a new version gets an internal id never stored, tombstoned or mapped before |
| `DbState.MapsAfter` | src/astervec_index.cc:2407-2445 | forward and reverse maps stay inverse and mapped real ids have their direct id tombstoned |
| `DbState.CountAfter` | src/astervec_db.cc:687-690 | the live count stays the number of live internal ids |
| `DbState.CompleteKeeps` | src/astervec_db.cc:631-923 | every insert, update and delete keeps the id state well formed |
| `DbState.FailedKeeps` | src/astervec_db.cc:672-686 | so does a failed one |
| `DbState.ResolveBack` | src/astervec_index.cc:2381-2399 | resolving a real id to its internal id and back returns it |
| `DbState.OneLiveVersion` | src/astervec_index.cc:2381-2405 | a live real id has exactly one live internal id, a dead one none |
| `DbState.LiveCount` | src/astervec_db.cc:687-690 | the live count is the number of live real ids |
| `DbView.CompleteView` | src/astervec_db.cc:631-923 | seen as a map from real id to vector and payload, a write does what it does to a map |
| `DbView.FailedView` | src/astervec_db.cc:672-686 | a failed write changes nothing that can be seen |
| `DbView.EditedView` | src/astervec_db.cc:711-724 | a payload edit is seen at its real id only |
| `DbReplay.ReplayIsComplete` | src/astervec_db.cc:476-561 | on the state it was issued in, replay does what the operation did |
| `DbReplay.FailedIsReplayed` | src/astervec_db.cc:672-686 | a failed operation leaves what its replay leaves iff it was no reinsert |
| `DbReplay.RunTracks` | src/astervec_db.cc:476-561 | replay from a checkpoint gives the run's vectors, tombstones, counters and mappings to stored ids |
| `DbReplay.RunExact` | src/astervec_db.cc:476-561 | and the core to the letter if no reinsert failed |
| `DbReplay.RowsOfRun` | src/astervec_db.cc:519-538 | rows that ran ahead of the log stay right while it is replayed |
| `DbReplay.RowsSoFarAre` | src/astervec_db.cc:855-871 | an operation writes its new row before it drops the old one, and no other |
| `DbReplay.InFlightRows` | src/astervec_db.cc:519-538 | with any prefix of an operation's row effects done, replay completes them |
| `DbReplay.CompletedRows` | src/astervec_db.cc:519-538 | rows with all effects of the run come out as they are, unlogged edits included |
| `DbLog.LogRedoesRun` | src/astervec_db.cc:427-440 | the two passes over the log redo the run, aborted operations aborted |
| `DbLog.RecoveryIsExact` | src/astervec_db.cc:417-561 | replay of the log suffix from any checkpoint over the crashed payload rows yields the uncrashed run, the operation in flight included iff its record is whole |
| `DbLog.LoggedIdsTaken` | include/astervec_index.h:634-641 | update ids in the log, aborted or not, are below the counter after replay: they are never reused |
| `DbLog.FailedReinsertDiffers` | src/astervec_db.cc:672-686 | a concrete failed reinsert after which memory and recovery resolve the id differently |
| `AsterVecDb.AsterVecDB.InsertDense` | src/astervec_db.cc:631-697 | an upsert on the map callers see, or no change if the node insertion fails; the log tells it |
| `AsterVecDb.AsterVecDB.UpdateDense` | src/astervec_db.cc:788-873 | likewise; without a payload the old one moves along; real ids over 63 bits are refused |
| `AsterVecDb.AsterVecDB.DeleteDense` | src/astervec_db.cc:875-923 | the map without the id; ids that never had a vector are left alone |
| `AsterVecDb.AsterVecDB.SetPayloadDense` | src/astervec_db.cc:711-724 | sets a live id's payload, refuses others, logs nothing |
| `AsterVecDb.AsterVecDB.EditPayloadDense` | src/astervec_db.cc:779-786 | edits the payload of an id that has one, without asking whether it is alive: only the live have one |
| `AsterVecDb.AsterVecDB.InsertVersion` | src/astervec_db.cc:665-697 | log, map a reinsert, insert, count, payload: together the operation's effects, or those of its failure |
| `AsterVecDb.AsterVecDB.UpdateVersion` | src/astervec_db.cc:826-872 | log, insert, map, tombstone, move the payload: likewise |
| `AsterVecDb.AsterVecDB.DeleteVersion` | src/astervec_db.cc:896-922 | log, tombstone, drop the payload, forget the mapping, count: likewise |
| `AsterVecDb.AsterVecDB.RecordUpdateMapping` | src/astervec_index.cc:2407-2420 | maps the real id and drops its stale reverse entry |
| `AsterVecDb.AsterVecDB.ForgetUpdateMapping` | src/astervec_index.cc:2436-2445 | drops both entries |
| `AsterVecDb.AsterVecDB.ObserveUpdateId` | include/astervec_index.h:636-641 | the counter passes every id seen |
| `AsterVecDb.AsterVecDB.ReplayRecord` | src/astervec_db.cc:476-561 | applies one record; rows that are there stay |
| `AsterVecDb.AsterVecDB.RecoverFromOpLog` | src/astervec_db.cc:427-441 | two passes over the records of the log; over what a crash left of a run, the database is as if it had not crashed |
| `DbConcurrent.Congruent` | src/astervec_db.cc:647-697 | an effect does the same on equal slices: nothing outside a real id's slice matters to it |
| `DbConcurrent.Foreign` | src/astervec_db.cc:647-697 | an effect touches no other real id's slice |
| `DbConcurrent.ScheduleKeeps` | src/astervec_db.cc:60-94 | any interleaving of the writers' steps keeps state, remaining effects and log in agreement |
| `DbConcurrent.AloneIsDone` | src/astervec_db.cc:60-94 | wherever the others stand, an operation on a real id nobody has locked can run to its end, and then it is done and the last of the log, its abort record behind it if it failed |
| `DbConcurrent.ReplayAgrees` | src/astervec_db.cc:427-440 | which lsns past the end of the log count as aborted does not matter to its replay: abort records may come late |
| `DbConcurrent.MirrorsFailed` | src/astervec_db.cc:672-686 | with foreign records in between, a failed operation leaves what its aborted replay leaves, up to mappings nothing resolves to |
| `DbConcurrent.WritersAgreeWithLog` | src/astervec_db.cc:60-94 | however writers interleave and whichever fail, with abort records anywhere behind: once all are done the state is the logged operations in lsn order, and the two passes of recovery make the same of it |
| `DbCrash.PutEarly` | src/astervec_db.cc:519-527 | a new version's row written before its record is replayed: replay leaves it, and everything else is as without it |
| `DbCrash.DropEarly` | src/astervec_db.cc:527-538 | an old version's row dropped before its record is replayed: nothing else differs, if whoever moves it has put the new row already |
| `DbCrash.GoneIsDead` | src/astervec_db.cc:534-548 | replay removes rows of tombstoned versions only |
| `DbCrash.EffectOver` | src/astervec_db.cc:855-871 | whatever row effect a writer does next, replaying the log over the rows gives the same |
| `DbCrash.RowsSchedule` | src/astervec_db.cc:519-548 | so at every point of every schedule replay over the rows as they are gives the rows of all logged operations done |
| `DbCrash.LogTells` | src/astervec_db.cc:427-440 | at every point of every schedule, replaying the log, from any state, is replaying its operations with their outcomes |
| `DbCrash.CrashAmongWriters` | src/astervec_db.cc:417-561 | a crash anywhere in any schedule, with any number of operations in flight and abort records anywhere: recovery gives the state of all logged operations done |
| `Recovery.DecodeOfEncode` | src/astervec_db.cc:365-415 | a logged operation becomes a record that replay reads as that operation, whatever lsn it got |
| `Recovery.DecodeAllIs` | src/astervec_db.cc:476-561 | records are refused iff one of them is no known operation, or carries a vector of another tag or size and is not aborted; what is read of the others is field for field what they say |
| `Recovery.CanWrite` | src/astervec_db.cc:365-415 | whatever there is to log can be appended, while it is storable and lsns last |
| `Recovery.TornUnseen` | src/oplog.cc:199-205 | a frame begun, in a new segment or not, and not finished changes no scan |
| `Recovery.LogReadBack` | src/astervec_db.cc:427-441 | scanning what the run wrote and a crash left gives back, decoded, the operations of the run, the one in flight iff its frame is whole |
| `Recovery.RecoveredFromBytes` | src/astervec_db.cc:417-441 | end to end: after any history of the log and any run since the checkpoint, the bytes a crash left decode and replay to the uncrashed run |
| `Recovery.DecodeRecords` | src/astervec_db.cc:476-561 | two passes: refused iff a record is no known operation, or has a vector of another tag or size and no record aborts it; otherwise every record becomes, field for field, the operation it says |
| `Recovery.ReplayLog` | src/astervec_db.cc:425-441 | scan, decode and replay on the database object; over what a crash left it is the uncrashed run |
| `Recovery.OpenWithLog` | src/astervec_db.cc:417-474 | reports corruption iff a record read is refused; opens exactly if every step succeeds: then the log continues behind the last record, what it holds is kept, and the replayed state, of the operations the records say, is the new checkpoint |
| `Checkpoint.StepKeeps` | src/astervec_db.cc:1199-1274 | every step of an installation, a failure or a crash after any of them keep every complete checkpoint covered by the log |
| `Checkpoint.AlwaysRecoverable` | src/astervec_db.cc:1199-1274 | at every point of every run a complete checkpoint can be opened, the log covers main and previous up to the last record appended, and undamaged the main file is complete |
| `Checkpoint.OpenedIsCovered` | src/astervec_db.cc:258-292 | after opening, also from the previous file, the log has all later records |
| `Checkpoint.FallbackNeedsPrev` | src/astervec_db.cc:270-289 | a damaged main file can be survived iff the previous checkpoint is complete |
| `Checkpoint.CanInstall` | src/astervec_db.cc:1199-1274 | from any idle state the steps of an installation can be done to the end: the new checkpoint is the main one, the old main one the previous one, and the log keeps what that one needs |
| `Checkpoint.CheckpointFiles.CheckpointLocked` | src/astervec_db.cc:1242-1274 | installs a checkpoint or stops after any step; truncation spares the one that was the main one before |
| `Checkpoint.CheckpointFiles.Install` | src/astervec_db.cc:1219-1232 | the old main file becomes the previous one, the new one takes its place |
| `Checkpoint.CheckpointFiles.LoadCheckpoint` | src/astervec_db.cc:262-292 | main, or else previous, removing a damaged main file |
| `BloomFilters.BloomFilter.Add` | src/bloom_filter.cc:76-87 | all probes of the key are set and no key added before is lost |
| `BloomFilters.BloomFilter.MightContain` | src/bloom_filter.cc:89-100 | true iff all probes are set; never false for an added key |
| `BloomFilters.BloomFilter.Reset` | src/bloom_filter.cc:66-74 | no bit is set, so with a probe at all every key is denied |
| `BloomFilters.UpdateMap.ResolveInternal` | src/astervec_index.cc:2381-2390 | with the filter in front, a lookup is the map's |
| `BloomFilters.UpdateMap.RecordUpdateMapping` | src/astervec_index.cc:2407-2420 | the mapping, with the filter never 70% full: it would be iff it is rebuilt with twice the capacity, and then it knows exactly the mapped real ids |
| `BloomFilters.UpdateMap.RebuildBloom` | src/astervec_index.cc:2427-2434 | the new filter has the capacity asked for and knows exactly the mapped real ids, each added once |
| `BestFirst.FirstVisitsAre` | src/astervec_index.cc:1913-1930 | a batch is made of exactly the neighbours not visited before |
| `BestFirst.BatchIsOneByOne` | src/astervec_index.cc:1913-1960 | marking a whole batch first and evaluating then does what marking and evaluating one by one does |
| `BestFirst.VisitKeepsBest` | src/astervec_index.cc:1934-1940 | results stay the nearest of all evaluated nodes |
| `BestFirst.VisitKeepsFrontier` | src/astervec_index.cc:1845-1961 | every evaluated node waits, is expanded, or is no nearer than full results |
| `BestFirst.ExpandProgress` | src/astervec_index.cc:1845-1961 | an expansion evaluates new nodes or uses up a candidate: the search terminates |
| `BestFirst.ClosedHasReach` | src/astervec_index.cc:1845-1961 | a set closed under adjacency with the entry in it has every reachable node |
| `BestFirst.FindsAll` | src/astervec_index.cc:1764-1981 | if ef is at least the number of reachable nodes, all of them are returned |
| `SearchLayer.Consider` | src/astervec_index.cc:1934-1940 | a node goes on both heaps iff there is room or a result is strictly farther; over the limit the farthest goes, of equally far ones the largest id |
| `SearchLayer.VisitNeighbors` | src/astervec_index.cc:1943-1959 | the one-by-one path |
| `SearchLayer.VisitBatch` | src/astervec_index.cc:1913-1942 | the batch path, with the same outcome |
| `SearchLayer.Run` | src/astervec_index.cc:1764-1981 | each node is evaluated at most once; the results, ascending, are the ef nearest of all evaluated; their neighbours are all evaluated; reading in batches makes no difference |
| `SearchLayer.RunFiltered` | src/astervec_index.cc:1983-2115 | the k nearest of the matching nodes evaluated, ascending; it stops only when nothing can improve them: every node evaluated that is a result, nearer than one, or anything while fewer than k match, has had all its neighbours evaluated; or at the scan limit, with something left to expand, the last expansion started within the limit |
| `SearchLayer.FilteredConverged` | src/astervec_index.cc:2061-2077 | once no waiting node is as near as the farthest of k results, or none waits, every node that counts is expanded |
| `SearchLayer.FindsAllMatching` | src/astervec_index.cc:2061-2100 | below the cap, all matching reachable nodes are returned when there are at most k |
| `SearchLayer.GreedySearchUpperLayer` | src/astervec_index.cc:1697-1762 | stops at a node none of whose neighbours is nearer; each node walked through is followed by its nearest neighbour, so the end is as near as every known neighbour of every node on the way |
| `SearchLayer.EndIsNearest` | src/astervec_index.cc:1725-1760 | the end of a descent is as near as every node on it and all their known neighbours |
| `SearchLayer.Drain` | src/astervec_index.cc:1964-1970 | pops the result heap empty, farthest first |
| `SearchLayer.SortByDistance` | src/astervec_index.cc:1972-1973 | the same ids in ascending order |
| `EdgeCoherence.EdgeView.GetEdgesCached` | src/astervec_index.cc:1354-1396 | the graph's adjacency without unlocatable neighbours, in its order, cached or not; a read list is cached, an unreadable one is not |
| `EdgeCoherence.LocatableConcat` | src/astervec_index.cc:1350-1368 | dropping unlocatable ids from two lists joined is dropping them from each: the others stay, in order, as often as they were |
| `EdgeCoherence.LocatableOne` | src/astervec_index.cc:1350-1368 | a lone id stays iff it has a location |
| `EdgeCoherence.EdgeView.LinkNeighbors` | src/astervec_index.cc:1309-1348 | with an adding store: every neighbour is in the node's list, the node in theirs, and every other list is as before; exactly the neighbours are invalidated, and cached lists stay right |
| `EdgeCoherence.BothWaysIs` | src/astervec_index.cc:1324-1333 | the batch has exactly the edges from the node to a neighbour and from a neighbour to the node |
| `EdgeCoherence.EdgesAdded` | src/astervec_index.cc:1334-1340 | an id is in a list afterwards iff it was before or the batch has that edge |
| `EdgeCoherence.EdgesRemoved` | src/astervec_index.cc:1108-1114 | an id is in a list afterwards iff it was before and the batch does not have that edge |
| `EdgeCoherence.LinkJoins` | src/astervec_index.cc:1309-1340 | so linking joins the node and its neighbours both ways and changes no other list |
| `EdgeCoherence.EdgeView.DeleteEdges` | src/astervec_index.cc:1104-1121 | with a removing store exactly the edges given are gone; exactly the lists at both their ends are invalidated, and cached lists stay right |
| `EdgeCoherence.EdgeView.InsertNode` | src/astervec_index.cc:905-1122 | a whole insert leaves the node joined both ways to at most m nodes the search found, but for the surplus edges deleted, and every other edge as it was; the cache stays right as the node has no location before; the first node of an index is linked to nobody and then stored |
| `EdgeCoherence.RunAll` | src/astervec_index.cc:1370-1396 | after any searches and inserts, from an empty index or another, a lookup is the graph's adjacency filtered by known location |
| `EdgeCoherence.CachedNodeGoesStale` | src/astervec_index.cc:1341-1345 | were the linked node cached, its list would still be cached after the link and be stale |
| `SearchScratches.SearchScratch.BeginSearch` | include/astervec_index.h:403-417 | nothing is visited, also when a version wraps around |
| `SearchScratches.SearchScratch.VisitedInsert` | include/astervec_index.h:419-438 | true exactly on the first visit since the search began, for both id ranges and while the array grows |
| `SearchScratches.RunSearches` | include/astervec_index.h:380-439 | any number of searches on one scratch are answered as by fresh sets |
| `Filters.SplitIsInverse` | src/metadata.cc:43-54 | the parts of a key are one more than its dots, have no dots, and joined by dots are the key |
| `Filters.SplitIsUnique` | src/metadata.cc:43-54 | no other path of parts without dots joins to the key |
| `Filters.EmptyParts` | src/metadata.cc:43-54 | the empty key has one empty part, a lone dot two |
| `Filters.OperatorMeaning` | src/metadata.cc:67-106 | a compiled operator says of a value what the operator means |
| `Filters.ObjectMeaning` | src/metadata.cc:135-204 | whatever filter object the parser accepts, at whatever depth: evaluated without a guard, its tree matches as it reads |
| `Filters.GuardPrunes` | src/metadata.cc:206-267 | matching from any depth is evaluating the tree with all below the guard replaced by false |
| `Filters.GuardDenies` | src/metadata.cc:211-212 | so the guard can only deny |
| `Filters.NothingPruned` | src/metadata.cc:211-212 | and denies nothing when no node lies below it |
| `Filters.AcceptedFilterMeans` | src/metadata.cc:67-301 | for every accepted filter and document: it matches iff it does with what the guard cuts off taken as false; a match is always right; it decides as it reads when nothing is cut off |
| `Filters.ObjectWithin` | src/metadata.cc:135-204 | objects at depth at most 30 compile to a tree within the guard |
| `Filters.CompiledFilterMeans` | src/metadata.cc:67-267 | so for every accepted filter with objects at depth at most 30, and every document, the compiled predicate matches iff direct evaluation does |
| `Filters.DeepFilterDiffers` | src/metadata.cc:211-212 | with an object at depth 32 the parser accepts and the match guard fires |
| `FilterLaws.LookupIs` | src/metadata.cc:23-24 | a key finds the value of the first field with that name, or none iff there is no such field |
| `FilterLaws.ResolveIs` | src/metadata.cc:17-28 | a path leads to a value iff each of its parts is a field of an object on the way |
| `FilterLaws.StrLessIs` | src/metadata.cc:36-41 | strings compare as proper prefix or at the first character that differs |
| `FilterLaws.OrderingOperators` | src/metadata.cc:30-41 | on two numbers or two strings exactly one of $lt, $eq, $gt holds, $gte is $gt or $eq, $lte is $lt or $eq; on numbers $lt is < of the reals, on strings the string order |
| `FilterLaws.UnorderedOperators` | src/metadata.cc:30-41 | on anything else, or with nothing there, none of the four ordering operators holds |
| `FilterLaws.MembershipOperators` | src/metadata.cc:214-241 | $eq is being there and equal, $ne its negation, $in equality with one of the values, $nin its negation, $exists being there or not |
| `FilterLaws.ContainmentOperators` | src/metadata.cc:242-258 | $contains_any: an array with one of the values; $contains_all: an array with all of them |
| `FilterLaws.OneOperator` | src/metadata.cc:65-115 | a filter of one operator on one key says of the value at that key's path what the operator says |
| `FilterLaws.OperatorKeys` | src/metadata.cc:135-204 | operator keys are those that start with a dollar sign |
| `FilterLaws.NumberFilter` | src/metadata.cc:220-227 | on a document with a number under the key the six comparisons are those of the reals |
| `FilterLaws.FieldsJoin` | src/metadata.cc:135-204 | fields of a filter object are all to hold |
| `FilterLaws.Connectives` | src/metadata.cc:117-133 | $and holds if all its elements do, $or if one does |
| `FilterLaws.AcceptedIff` | src/metadata.cc:60-204 | a filter is accepted iff it is an object, within the depth, with logical arrays of such objects, known operators with an array or boolean where they take one, and no object of both operators and other keys |
| `FilterParser.SplitPathLoop` | src/metadata.cc:43-54 | the loop splits at the dots: parts that join to the key, one more than it has dots |
| `FilterParser.ParseOperatorObject` | src/metadata.cc:65-115 | one leaf per operator; the first bad operator decides |
| `FilterParser.ParseLogicalArray` | src/metadata.cc:117-133 | all elements in order; the first error decides |
| `FilterParser.ParseObject` | src/metadata.cc:135-204 | all fields in order; the first error decides; a single conjunct stands for itself |
| `FilterParser.MatchesWithDepth` | src/metadata.cc:206-267 | the recursive matcher with its depth guard |
| `FilterParser.FilterMatches` | src/metadata.cc:271-301 | a filter is accepted iff it reads as acceptable; an accepted one never matches a document it does not hold of, and decides as it reads within the guard; at any depth, as it reads with the rest taken as false |
| `BulkAdjacency.BuildLists` | src/astervec_bulk_build.cc:162-175 | v is in the list of u iff it is not u and stands among the first mMax entries of u's row, and as often as it does there |
| `BulkAdjacency.Symmetrize` | src/astervec_bulk_build.cc:177-195 | each list gets the missing reverses of edges behind it, in ascending order, and nothing else |
| `BulkAdjacency.BothWaysHas` | src/astervec_bulk_build.cc:177-195 | so an edge is there iff it or its reverse was, both ways, and no vertex is its own neighbour |
| `BulkAdjacency.CapList` | src/astervec_bulk_build.cc:207-225 | a list over the limit keeps its nearest entries, as many as the limit |
| `BulkAdjacency.CapDegrees` | src/astervec_bulk_build.cc:206-225 | so for every vertex |
| `BulkAdjacency.CappedBound` | src/astervec_bulk_build.cc:206-225 | no degree exceeds the limit and nothing is added |
| `BulkAdjacency.EmitEdges` | src/astervec_bulk_build.cc:227-238 | exactly the edges of the lists |
| `BulkAdjacency.KeptIffRank` | src/astervec_bulk_build.cc:206-225 | an entry survives the cap iff fewer entries than the limit are closer, whatever order the list is in |
| `BulkAdjacency.SymmetricIff` | src/astervec_bulk_build.cc:197-229 | the capped lists of symmetric ones are symmetric iff no edge is among the nearest at one end and not at the other |
| `BulkAdjacency.LoadLayer0` | src/astervec_bulk_build.cc:158-238 | two vertices are linked iff one stands among the first mMax entries of the other's row; a linked pair has the edge from one to the other iff fewer entries of the one's list than the limit are closer; all edges go both ways iff that holds from both ends or from neither, for all linked pairs; and every linked pair has both if no list is over the limit |
| `BulkAdjacency.EmittedIffNear` | src/astervec_bulk_build.cc:158-238 | for rows without repetitions: an edge is emitted iff its ends are linked and fewer vertices linked to the one than the limit are closer to it |
| `BulkAdjacency.CloserOrder` | src/astervec_bulk_build.cc:210-220 | closer is nearer, and among equally near ones the smaller number: a strict order in which any two differ |
| `BulkAdjacency.CutEdgeStays` | src/astervec_bulk_build.cc:197-229 | in particular an edge cut at one end stays at an end that was not over the limit, and then symmetry is lost |
| `BulkAdjacency.HubLosesSymmetry` | src/astervec_bulk_build.cc:227-229 | a hub with two spokes and a limit of one is no longer symmetric |

## Left out

- Statistics, counters of hits and misses, logging, options parsing, HTTP, Python bindings and the command line: no behaviour of their own.
- SQ8 encoding and distance arithmetic: records are opaque values and distance is any function to the reals.
- Graph and payload stores, the file system and fsync: maps, byte sequences and files with outcome parameters; a process crash loses what is in memory and cuts the log's last segment, and no write already made to a file is undone.
- Errors of payload writes and of log appends inside the write calls: in `astervec_db.dfy` appends and payload writes succeed; append errors are in `oplog_store.dfy`.
- A failed node insertion that leaves its vector behind: failed insertions store nothing here, so live-count claims are for runs where graph and vector writes succeed.
- Keyed ids: the map from string keys to dense ids.
- AsterVecDb.AsterVecDB.RecoverFromOpLog: the two passes alone; reading the log, reopening it and the checkpoint afterwards are in `Recovery.OpenWithLog`, where the checkpoint is a parameter that succeeds or not.
- PagedStorage.PagedVectorStorage.SerializeMetadata: the metadata is a value; its byte layout is not modelled.
- PagedStorage.PagedVectorStorage.DeserializeMetadata: takes that value, so short reads and the checks of the dimension and of array sizes are not modelled.
- Checks of arguments before a write (vector dimension, metric, payload syntax). Ids over 63 bits are refused where callers' ids are resolved (src/astervec_db.cc:1322), so inserts and deletes take 63-bit ids here.
- Running with the operation log switched off.
- DbConcurrent.WritersAgreeWithLog: payload edits take no id lock in the code and are covered sequentially only, and `DbCrash` has none.
- The 64 shards of the edge cache: one shard is modelled, ids are spread over independent ones by a hash; the raw encoding behind the environment switch is not modelled.
- EdgeCoherence.EdgeView.Select: stands for neighbour selection and promises only nodes the search found; which ones is recall, not coherence.
- EdgeCoherence.EdgeView.InsertNode: sequential; the cache of the whole engine is any map that may evict, and the surplus edges to delete are any list.
- Dense id arrays of the paged store: locations are two maps from ids, so growth of the arrays and reopening with another configured capacity are not modelled; the pool of recycled buffer memory and resizing the page cache while running are not modelled either.
- PagedStorage.PagedVectorStorage.StoreEncoded: atomic, and each id is stored once; a second store is `Overwrite`.
- Standard containers: heaps are sets with their top taken by comparison, hash maps are maps, sorting is insertion sort.
- Node levels, neighbour selection and upper-layer links of an insert, RNN-Descent, and recall.
- SearchLayer.Run: equal distances come in an unspecified order in the results, as the sort in the code leaves them.
- Lsns, update ids and slot numbers do not wrap at 64, 32 or 16 bits here, except where the wrap is the point (checksum, hashes, epoch versions).
