# SSD flash translation layer: model and proofs

This project models an SSD simulator's flash translation layer and proves that it does what it is
for: whatever sequence of user writes, reads, garbage-collection moves and erases is served, reading
through the mapping finds exactly the data last written to each logical page, and, once the erase
credits the right number of free pages, none of the simulator's own consistency checks can stop it.

The model has two layers.

* **Values.** A plane (`PlaneModel`), the device (`DeviceModel`), the whole translation layer
  (`FtlModel`), a recency cache (`CachedMapping`, `DataCaching`) and the flash chip (`NandChips`)
  are datatypes with one function per operation. Runs over these functions carry the main results.
* **Objects.** The classes of the source (`BlockSlot`, `PlaneBookKeeping`, `BlockManager`,
  `GcWlUnit`, `CachedMappingTable`, `AddressMappingDomain`, `AddressMappingPageLevel`, `DataCache`,
  `NandChip`) update their fields in place, with the source's loops and branches. Each method's
  contract says that the new state is the one the value-level function gives.

The translation layer keeps the mapping, a write index, a bitmap of invalid pages and its count per
block, three counters per plane, and the free pool with three open blocks per stream and plane. The
invariant `FtlModel.FtlInv` says that all of these agree: counters are sums over blocks, every block is in exactly
one of free pool (unwritten), open slots (not full) and closed (full), and the mapping is a
bijection between mapped logical pages and live physical pages. `FtlRuns.RunRefines` carries it over every run.
`DeviceRuns.PagesProgrammedOnce` shows that no physical page is ever programmed twice between erases, and
`Overprovisioning.DeviceNeverStarves` that an over-provisioned device can serve every sequence of requests.

## How the files are laid out

| files | content |
|---|---|
| `flash_types`, `marks`, `transactions` | shared entities, address and transaction records |
| `free_pool`, `plane_model`, `plane_proofs`, `initial_plane`, `plane_runs` | one plane: operations, invariant, runs |
| `device_model`, `ftl_model`, `ftl_proofs`, `ftl_steps`, `ftl_runs`, `gc_cycle` | the translation layer: steps, refinement, collection |
| `ongoing_marks`, `step_outcomes` | the marks of blocks over runs; when each step completes and how it fails |
| `device_runs`, `disk_history` | runs of the translation layer as runs of its planes; the last value written |
| `collection_room`, `collection_runs`, `safe_victims`, `overprovisioning` | room for collections; collections as runs; their safety test; progress |
| `repeated_writes`, `fifo_selection` | reachable states in which the code fails; the first-in-first-out queue |
| `bits`, `address_codec`, `striping` | bitmaps and packed keys, page numbers, striping |
| `plane_bookkeeping`, `gc_wl`, `selection_laws`, `block_manager` | the mutable plane records, victim selection, block manager |
| `lru`, `cached_mapping_table`, `cmt_history`, `data_cache` | recency lists with stored iterators, and the two caches on them |
| `mapping_domain`, `address_mapping` | the mapping tables of the streams and the mapping layer |
| `nand_chip`, `chip_progress` | page buffers and the worker queue |

## Where the code departs from its intent

Runs use the intended behaviour; the code as written is modelled beside it and what it does is
proved.

* `AddErasedBlockToPool` credits `pages_per_block - invalid_page_count` free pages
  (block_manager/block_manager.cpp:198). Its own sum check then passes exactly when twice the invalid
  count is the block size, it always stops the simulator on a fully invalidated block, which writing
  one page over and over reaches, and it never leaves a well-formed plane. The intended credit is
  `invalid_page_count`; with it the erase keeps the plane well formed exactly for fully invalidated
  blocks.
* `CachedMappingTable::Insert` demands a usable entry although only it makes entries usable
  (address_mapping/address_mapping.cpp:48-55). As written no run from an empty table ever holds a
  usable entry. The intended step fills a reserved, waiting entry.
* The greedy case of `CheckGcRequired` looks at one block and falls through into the random greedy
  case (gc_wl/gc_wl.cpp:69-83); the method follows the code, `SelectGreedy` is the loop run to its
  bound. The draw has no range in the source (gc_wl/gc_wl.h:51): a draw is any block of the plane.
  The candidate is never used by the source, so the method returns it.
* The first-in-first-out policy pops `block_usage_history` without any safety test
  (gc_wl/gc_wl.cpp:134-139), and that queue holds every block put to use, the collector's and the
  translation blocks included. Its choice may be collected exactly if it is full and unmarked;
  writing one page over and over reaches a check that chooses the collector's own open block.
* `AllocatePageInPlaneForUserWrite` has no guard against an entry without a page
  (address_mapping/address_mapping.cpp:335-342): the decoded address is outside the device, which
  the method reports as an error. So a page must be read before it is first written, and the first
  write to any page of a fresh device fails.
* `NandDriver::GetLPA` is a stub that answers the page number (nand_driver/nand_driver.h:13). The
  barrier takes the driver's answers as a parameter that tells each live page's owner; with the stub
  it works exactly where every valid page belongs to the logical page of its own number, which
  already the first read of any page but number 0 breaks.
* `DataCache::RemoveSlot` reads an iterator it has just erased (cache_manager/cache.cpp:88-89); the
  method deletes from both structures.
* Both insertions of `DataCache` drop the least recently used page without writing it back
  (cache_manager/cache.cpp:96-98, 115-117). This is harmless, whatever is stored behind the cache,
  exactly when the cache has room or that page is not dirty; one write into a cache of one page
  reaches the other case.
* Neither `InvalidatePageInBlock` nor `OnlineCreateEntryForRead` checks its page
  (block_manager/block_manager.cpp:181-192, address_mapping/address_mapping.cpp:429-441). The first
  keeps the invariant exactly for live pages, the second exactly for entries without a page; the
  callers in the source stay within that.
* The mask `read_page_bitmap &= 1` (address_mapping/address_mapping.cpp:347) is marked for deletion
  in the source and ignored.

## Modelling decisions

* An error exit of the simulator is an error value; after it the state is not specified further.
* The page counts of the geometry are its products, as a class invariant, because the constructor
  that sets them is not part of the source. The device has at most 2^64 - 1 pages, so that NO_VALUE
  is not a page number.
* A page's content and its owner are recorded when the page is allocated; a related read merges the
  old sectors at that moment.
* Every logical page has a table entry from the start, holding NO_VALUE until its first read.
* A collection cycle is composed of the steps in the source: barrier, moves with release, erase.
* The usable pages of a plane are those of all its blocks except three open ones per stream and one
  fewer than the collections configured. A device is over-provisioned when every plane has more of
  them than logical pages are striped to it.
* Streams use 8 bits and logical pages 56 bits of a packed key, as the key macros assume.

## Model

| member | source | states |
|---|---|---|
| FtlRuns.RunRefines | address_mapping/address_mapping.cpp:273-441 | over every run of user writes, reads, GC writes, erases, counter steps, block barriers and single locks, what is read through the mapping is what a plain (stream, lpa) map holds after the completed steps, and the full invariant holds |
| FtlRuns.DeviceRefinesMap | address_mapping/address_mapping.cpp:332-441 | from the initial device the mapped pages, their bitmaps and every sector read are those of the plain map replayed from the completed steps |
| DiskHistory.DeviceHoldsLastWritten | address_mapping/address_mapping.cpp:332-441 | a page is mapped iff a completed step named it, its bitmap is the union of all bitmaps applied to it, and each of its sectors reads as the last value written, erased if there is none |
| DiskHistory.ReplayIsHistory | address_mapping/address_mapping.cpp:332-441 | the replayed plain map holds exactly the pages named, the union of their bitmaps and the last values written |
| DiskHistory.LastWrittenIsLast | address_mapping/address_mapping.cpp:332-357 | the last value written is the one of the write after which no other carries the sector |
| DiskHistory.NeverWritten | address_mapping/address_mapping.cpp:429-441 | a sector no write carries is erased |
| FtlRuns.StepRefines | address_mapping/address_mapping.cpp:332-441 | one completed step of any kind keeps the invariant and changes the abstract disk only as that step should |
| FtlRuns.ChecksNeverFire | block_manager/block_manager.cpp:33-44 | with the erase credit repaired, in no reachable state does the counter, free-page, stream or mapping consistency check fire, the barrier's comparison with the flash included |
| FtlRuns.BarrierRefines | address_mapping/address_mapping.cpp:273-305 | a block barrier locks exactly the pages mapped into the block or fails on one locked already, and changes nothing else |
| FtlRuns.InitialInv | block_manager/block_manager.cpp:58-129 | the device as constructed satisfies the invariant and holds nothing |
| FtlRuns.MappedPagesStayHome | address_mapping/address_mapping.cpp:321-441 | every mapped page stays in the plane its stream stripes it to, over every run whose collector moves inside planes |
| FtlRuns.WriteBeforeReadFails | address_mapping/address_mapping.cpp:335-342 | over every run an admitted write leaves the device iff no completed step has given its page an entry |
| FtlRuns.FirstWriteFails | address_mapping/address_mapping.cpp:335-342 | on a fresh device the write of any page leaves the device |
| DeviceRuns.PagesProgrammedOnce | block_manager/block_manager.cpp:131-204 | over every run of the translation layer no physical page is handed out twice without a wipe of its block in between, also when pages move between planes |
| DeviceRuns.PlanesExplained | block_manager/block_manager.cpp:131-204 | in every plane, over every such run, pages are handed out in order after each wipe, erase counts add up to the wipes, and without wear levelling blocks are opened in the order in which they were freed |
| DeviceRuns.RunIsOps | address_mapping/address_mapping.cpp:332-441 | every run is a run of allocations, invalidations, erases and marks that leads the planes to the same state |
| DeviceRuns.StepIsOps | address_mapping/address_mapping.cpp:332-441 | every completed step is the run of its plane calls, hands out exactly the page it newly maps, and wipes a block only as an erase |
| DeviceRuns.RunsProject | block_manager/block_manager.cpp:131-204 | what happens in one plane depends on the calls to that plane alone, in their order |
| StepOutcomes.WriteOutcome | address_mapping/address_mapping.cpp:332-408 | exactly when a user write completes, is refused, or fails and with which error, in that order of precedence, on the entry and the home plane |
| StepOutcomes.ReadOutcome | address_mapping/address_mapping.cpp:382-441 | exactly when a user read completes and with which error it fails |
| StepOutcomes.GcOutcome | address_mapping/address_mapping.cpp:359-380 | exactly when a GC write completes and with which error it fails |
| StepOutcomes.BarrierOutcome | address_mapping/address_mapping.cpp:273-305 | exactly when a block barrier completes and with which error it fails; it locks the pages mapped into the block |
| StepOutcomes.LockOutcome | address_mapping/address_mapping.cpp:297-319 | locking and unlocking one page: the error when there is nothing to do, otherwise only that lock changes, and each undoes the other |
| StepOutcomes.MarkOutcome | block_manager/block_manager.cpp:266-300 | a counter or flag call fails only outside the device |
| StepOutcomes.EraseOutcome | block_manager/block_manager.cpp:194-204 | the intended erase completes on every block of the device, so it does not protect valid pages |
| StepOutcomes.EraseForgets | nand_chip/nand_chip.cpp:64-81 | an erase forgets the contents and owners of exactly the block's pages |
| OngoingMarks.StepMarks | address_mapping/address_mapping.cpp:332-441 | every completed step moves the read and program counts and the flag of every block by exactly the transactions it starts or finishes there; moves of the collector and erases move none |
| OngoingMarks.ReadCountsOnce | address_mapping/address_mapping.cpp:382-397 | a read raises the read count of the block its page is in by one, and no other |
| OngoingMarks.PartialWriteCountsOnce | address_mapping/address_mapping.cpp:338-352 | a write raises the read count of the old page's block by one iff it leaves a sector out that was written before |
| OngoingMarks.RunMarks | block_manager/block_manager.cpp:131-300 | over every run the marks of every block are those folded from the completed steps |
| FtlModel.MappingBijection | block_manager/block_manager.cpp:181-192 | the mapping is injective, its image is exactly the programmed pages whose invalid bit is clear, each in a block of the mapped stream |
| FtlSteps.WritePageRefines | address_mapping/address_mapping.cpp:332-357 | a user write overrides the written sectors and nothing else, its bitmap becomes the union, the page lands in its home plane |
| FtlSteps.WritePageFails | address_mapping/address_mapping.cpp:332-357 | a write to a mapped page succeeds iff its home plane has a page to give, and otherwise fails with the empty-pool error |
| FtlSteps.WriteNeedsMapping | address_mapping/address_mapping.cpp:335-342 | as written, a write leaves the device iff the entry holds NO_VALUE |
| FtlSteps.AdmittedWriteSucceeds | address_mapping/address_mapping.cpp:398-408 | with at least one collection configured a write that is not stopped never meets an empty pool; it is refused iff the plane is short of free blocks |
| FtlSteps.CreateForReadRefines | address_mapping/address_mapping.cpp:429-441 | a read of an unmapped page creates an entry in the home plane whose sectors read as erased |
| FtlSteps.CreateForReadFails | address_mapping/address_mapping.cpp:437 | it fails with the empty-pool error when the home plane has no page to give |
| FtlSteps.CreateForReadKeepsExactly | address_mapping/address_mapping.cpp:429-441 | creating a page keeps the invariant iff the entry had none |
| FtlSteps.UserReadRefines | address_mapping/address_mapping.cpp:382-397 | a read leaves a mapped page where it is with its contents, and maps an unmapped one |
| FtlSteps.UserReadFails | address_mapping/address_mapping.cpp:382-397 | a read fails iff there is no entry, or a page must be created and the plane has none |
| FtlSteps.GcWriteRefines | address_mapping/address_mapping.cpp:359-380 | a GC write moves a page without changing any written sector |
| FtlSteps.GcWriteFails | address_mapping/address_mapping.cpp:359-380 | it succeeds iff the page is mapped, the carried bitmap covers every written sector and the plane has a page to give |
| FtlSteps.EraseBlockRefines | block_manager/block_manager.cpp:194-204 | erasing a fully invalidated block changes neither mapping nor contents |
| FtlProofs.MergeIsOverride | address_mapping/address_mapping.cpp:338-354 | the page a user write programs, related read included, is the old contents overridden by the written sectors |
| FtlProofs.RelocateFails | address_mapping/address_mapping.cpp:332-380 | a relocation into a plane without a page to give fails with the empty-pool error and no other |
| GcCycle.BarrierIsExact | address_mapping/address_mapping.cpp:273-305 | the barrier over a block never finds an inconsistent mapping; it locks exactly the pages mapped into the block, or fails iff one was locked |
| GcCycle.StubBarrierWorksExactly | nand_driver/nand_driver.h:13 | with the stub lookup the barrier works iff every valid page belongs to the logical page of its own number, and otherwise stops with a missing or inconsistent mapping |
| GcCycle.MovesFit | address_mapping/address_mapping.cpp:359-380 | moving a victim's pages succeeds iff they fit into the collector's open block and the pool |
| GcCycle.VictimIsEmpty | address_mapping/address_mapping.cpp:359-380 | after the moves the victim is fully invalid, free pages fell by its valid pages, at most one block left the pool |
| GcCycle.CollectWorks | address_mapping/address_mapping.cpp:273-380 | a whole cycle keeps contents, bitmaps and barriers, leaves no entry in the victim, touches no other plane, leaves the pool no smaller and frees exactly the victim's invalid pages |
| GcCycle.CollectFails | address_mapping/address_mapping.cpp:273-380 | a cycle completes iff no page of the victim was locked and its valid pages fit |
| GcCycle.CollectionTerminates | block_manager/block_manager.cpp:194-204 | repeated collection of blocks with an invalid page frees at least one page each time, so the number of cycles is bounded by the pages not free |
| CollectionRoom.WriteTakesAtMostOne | address_mapping/address_mapping.cpp:332-357 | a user write takes a block from its home pool iff its page is the last of a block |
| CollectionRoom.AdmittedWriteLeavesRoom | address_mapping/address_mapping.cpp:398-408 | after an admitted user write the home pool still holds all but one of the blocks the limit reserves |
| CollectionRoom.CollectionFitsAfterWrite | gc_wl/gc_wl.cpp:169-172 | with two or more collections configured, after an admitted write every full unlocked block of the plane can be collected |
| CollectionRoom.OneCollectionIsNotEnough | gc_wl/gc_wl.cpp:169-172 | with one, a read and an admitted write reach a state in which a full unlocked block cannot be collected |
| CollectionRoom.StubStopsReachableBarrier | nand_driver/nand_driver.h:13 | the first read of any page but number 0 reaches a block over which the barrier works with a true lookup and stops with the stub |
| CollectionRuns.CollectIsRun | address_mapping/address_mapping.cpp:273-380 | a completed collection of a full block is a run of barrier, GC writes with releases, and an erase of a fully invalid block |
| SafeVictims.SafeCollection | gc_wl/gc_wl.cpp:174-189 | a collection of a block that passes the safety test is a run that sets its barrier over a safe victim |
| SafeVictims.FullBlockIsSafe | gc_wl/gc_wl.cpp:174-189 | with no program and no collection under way every full block passes the safety test |
| SafeVictims.CollectorRunStaysQuiet | block_manager/block_manager.cpp:149-163 | the steps of collections start no user program and leave no block marked |
| Overprovisioning.DeviceNeverStarves | gc_wl/gc_wl.cpp:169-172 | with two collections configured and fewer logical pages per plane than usable ones, every sequence of reads and of writes to pages read before is served from the constructed device by a run whose other steps are ends of programs and collections of full blocks that pass the safety test, and leaves the disk it amounts to |
| Overprovisioning.CollectUntilAdmitted | gc_wl/gc_wl.cpp:169-172 | a plane with a free block, no locked page and fewer logical pages than usable ones can be collected until it admits user writes, with disk, locks and other planes untouched; with no program under way every victim passes the safety test |
| Overprovisioning.NextCollection | address_mapping/address_mapping.cpp:273-380 | while it stops user writes, some full block of it has an invalid page and its collection completes |
| Overprovisioning.SomeFullBlockHasInvalidPage | block_manager/block_manager.cpp:131-192 | a plane with fewer valid pages than its full blocks have pages holds a full block with an invalid page |
| Overprovisioning.BlocksAreCounted | block_manager/block_manager.cpp:131-204 | free blocks, three open blocks per stream and full blocks are all blocks of the plane |
| RepeatedWrites.EraseStopsReachableDevice | block_manager/block_manager.cpp:194-204 | in every device with two spare blocks per plane that leave enough for the collections configured, one read and a block's worth of writes of one page reach a fully invalidated block on which the erase as written stops the simulator and the intended one succeeds |
| RepeatedWrites.FifoChoosesOpenBlock | gc_wl/gc_wl.cpp:134-139 | in every such device with this policy and a collection due, writing one page over and over reaches a write whose collection check chooses the collector's own open block |
| FifoSelection.FifoIsCollectable | gc_wl/gc_wl.cpp:134-139 | the choice is the front of the queue, and may be collected iff it is full, has no program under way and is not being collected |
| FifoSelection.QueueIsUseOrder | gc_wl/gc_wl.cpp:134-139 | over every run of a plane the queue holds the blocks put to use, in order, less one from the front for each collection check that was due |
| FifoSelection.QueuesInUseOrder | gc_wl/gc_wl.cpp:134-139 | the same in every plane over every run of the translation layer |
| PlaneProofs.CountersAreSafe | block_manager/block_manager.cpp:33-44 | free, valid and invalid pages add up to the capacity, and there is a free page for every open block |
| PlaneProofs.FreePagesRemain | block_manager/block_manager.cpp:33-44 | at least three free pages per stream remain, so the check never fails |
| PlaneProofs.TakeFreeKeeps | block_manager/block_manager.cpp:20-31 | opening the front block of the pool keeps the partition of the blocks |
| PlaneProofs.AllocateKeeps | block_manager/block_manager.cpp:131-179 | each of the three allocators succeeds iff it does not fill its block on an empty pool, never fails its own check, and keeps the plane invariant |
| PlaneProofs.InvalidateKeeps | block_manager/block_manager.cpp:181-192 | invalidating a live page fails iff the stream is wrong, and keeps the plane invariant |
| PlaneProofs.InvalidateKeepsExactly | block_manager/block_manager.cpp:181-192 | on any page of the right stream the plane invariant is kept iff the page is live |
| PlaneProofs.EraseKeeps | block_manager/block_manager.cpp:194-204 | the intended erase of a fully invalidated block passes its check and keeps the plane invariant |
| PlaneProofs.EraseLeaves | block_manager/block_manager.cpp:7-18 | the erase leaves an unwritten block of no stream, worn once more, with its marks as they were, its invalid pages free again and the block in the pool |
| PlaneProofs.EraseKeepsExactly | block_manager/block_manager.cpp:194-204 | the intended erase passes its check on every block, and keeps the invariant iff the block is fully invalidated |
| PlaneProofs.EraseAsWrittenSumCheck | block_manager/block_manager.cpp:198-199 | the erase as written passes its sum check iff twice the invalid count is the block size |
| PlaneProofs.EraseAsWrittenFailsWhenNeeded | block_manager/block_manager.cpp:198-203 | on a fully invalidated block the erase as written always stops the simulator |
| PlaneProofs.EraseAsWrittenCountersExact | block_manager/block_manager.cpp:198-199 | its counters are right iff half the block was written and all of that invalidated |
| PlaneProofs.EraseAsWrittenNeverKeeps | block_manager/block_manager.cpp:194-204 | it never leaves a well-formed plane |
| InitialPlanes.InitialPlaneInv | block_manager/block_manager.cpp:75-122 | the plane as constructed satisfies the plane invariant |
| InitialPlanes.OpenStreamsInOrder | block_manager/block_manager.cpp:114-122 | the constructor opens blocks 0, 1, 2, ... for data, collector and translation of each stream in turn, and queues them in that order |
| PlaneRuns.RunExplained | block_manager/block_manager.cpp:131-300 | over every run of one plane, marks included, pages are handed out in order after each wipe, erase counts add up to the wipes, and without wear levelling the pool is a first-in-first-out queue |
| PlaneRuns.ProgramOnce | block_manager/block_manager.cpp:131-204 | no page is handed out twice without a wipe of its block in between, across streams and kinds of open block |
| PlaneRuns.ReturnIsFifo | block_manager/block_manager.cpp:46-56 | without wear levelling an erased block goes to the back of the pool |
| PlaneRuns.LeastWornIsNext | block_manager/block_manager.cpp:20-31 | with wear levelling the next block opened is a least-worn free block by its current erase count |
| PlaneRuns.EraseStopsReachablePlane | block_manager/block_manager.cpp:131-204 | from every constructed plane with two spare blocks, however many collections are configured, allocations and invalidations over one block reach a fully invalidated block on which the erase as written stops the simulator and the intended one succeeds |
| FreePool.InsertKeepsOrder | block_manager/block_manager.cpp:46-56 | the pool stays ordered by wear |
| FreePool.InsertMembers | block_manager/block_manager.cpp:46-56 | filing a block adds that block and no other |
| FreePool.InsertIsStable | block_manager/block_manager.cpp:46-56 | blocks of equal wear keep their order of arrival |
| FreePool.InsertIsFifo | block_manager/block_manager.cpp:46-56 | under one common key the newcomer goes to the back |
| DeviceModel.InvalidateAtKeeps | block_manager/block_manager.cpp:181-192 | on the device, invalidating a live page fails iff the stream is wrong and keeps every plane invariant |
| DeviceModel.InvalidateAtKeepsExactly | block_manager/block_manager.cpp:181-192 | on any page of the device the stream decides failure, and the page being live whether every plane invariant is kept |
| DeviceModel.AllocateAtPages | block_manager/block_manager.cpp:131-179 | an allocation hands out a page that was not programmed, makes it live for its stream, and leaves every other page and plane alone |
| DeviceModel.EraseAtPages | block_manager/block_manager.cpp:194-204 | an erase takes exactly the block's pages out of the programmed ones and no page out of the live ones |
| AddressCodec.DecodeEncode | address_mapping/address_mapping.cpp:253-271 | decoding the number of a page in the device gives its coordinates back |
| AddressCodec.EncodeDecode | address_mapping/address_mapping.cpp:236-271 | every number below the page total decodes into the device and encodes back |
| AddressCodec.EncodeKeepsOrder | address_mapping/address_mapping.cpp:268-271 | page numbers order pages lexicographically by coordinates |
| AddressCodec.EncodeDoesNotOverflow | address_mapping/address_mapping.cpp:268-271 | with at most 2^64 pages no partial result of the encoding overflows |
| AddressCodec.NoValueIsOutside | param.h:28 | NO_VALUE decodes into the device iff there are that many pages |
| Striping.SharePlaneIffCongruent | address_mapping/address_mapping.cpp:321-330 | two logical pages share a plane iff they agree modulo the number of planes |
| Striping.WindowHitsEveryPlaneOnce | address_mapping/address_mapping.cpp:321-330 | any window of that many consecutive logical pages hits every plane exactly once |
| Bits.OverwriteTest | address_mapping/address_mapping.cpp:338-340 | the mask test of a user write holds iff every sector written earlier is written again |
| Bits.SetPageIsExact | block_manager/block_manager.cpp:191 | marking a page changes IsPageValid for that page and no other, at any block size |
| Bits.SetPageAddsOne | block_manager/block_manager.cpp:190-191 | the word array refines a set of page numbers |
| Bits.ClearedIsEmpty | block_manager/block_manager.cpp:14-17 | zeroed words stand for the empty set |
| Bits.KeysAreUnique | param.h:32 | packed keys are equal iff stream and logical page are, within 8 and 56 bits |
| Bits.PackedOnce | param.h:32 | within any one stream, 56-bit logical pages never share a key |
| Bits.SameKey | param.h:32 | packed keys of one stream, or of any 8-bit streams, are equal iff stream and logical page are |
| Bits.UnpackPack | param.h:32-33 | unpacking returns the logical page iff it shares no bit with the shifted stream |
| Bits.UnpackPackInRange | param.h:32-33 | so it returns every 56-bit logical page, for every stream |
| PlaneBookkeeping.BlockSlot.Erase | block_manager/block_manager.cpp:7-18 | the word loop leaves the erased block, its counters of ongoing work untouched |
| PlaneBookkeeping.BlockSlot.constructor | block_manager/block_manager.cpp:86-112 | an unwritten block of no stream, with a bitmap word for every 64 pages |
| PlaneBookkeeping.BlockSlot.HandOut | block_manager/block_manager.cpp:137-138 | hands out the write index and advances it; a user write counts as an ongoing program |
| PlaneBookkeeping.BlockSlot.MarkInvalid | block_manager/block_manager.cpp:190-191 | the block's invalid set grows by that page |
| PlaneBookkeeping.BlockSlot.IsPageValid | block_manager/block_manager.cpp:315-318 | true iff the page is not in the invalid set |
| PlaneBookkeeping.PlaneBookKeeping.constructor | block_manager/block_manager.cpp:75-113 | builds the plane with every block unwritten and in the pool |
| PlaneBookkeeping.PlaneBookKeeping.OpenAll | block_manager/block_manager.cpp:114-122 | opens three blocks per stream in turn; fails iff the pool holds fewer |
| PlaneBookkeeping.PlaneBookKeeping.OpenNext | block_manager/block_manager.cpp:119-121 | opens data, collector and translation block of the next stream, in that order; fails iff the pool holds fewer than three |
| PlaneBookkeeping.PlaneBookKeeping.GetOneFreeBlock | block_manager/block_manager.cpp:20-31 | takes the front of the pool, records stream and history; fails iff the pool is empty |
| PlaneBookkeeping.PlaneBookKeeping.AddToFreeBlockPool | block_manager/block_manager.cpp:46-56 | files the block under its wear, or under 0, after all equal keys |
| PlaneBookkeeping.PlaneBookKeeping.CheckBookKeepingCorrectness | block_manager/block_manager.cpp:33-44 | reports the error the specification reports for the record's value |
| PlaneBookkeeping.PlaneBookKeeping.ProgramNext | block_manager/block_manager.cpp:134-138 | the slot's open block hands out its next page; two counters and one block change |
| PlaneBookkeeping.PlaneBookKeeping.Reopen | block_manager/block_manager.cpp:140-143 | the slot gets the front of the pool; fails iff the pool is empty |
| PlaneBookkeeping.PlaneBookKeeping.MarkBlock | block_manager/block_manager.cpp:266-300 | the counter of one block named by the call goes up or down by one, or its flag is set or cleared |
| PlaneBookkeeping.PlaneBookKeeping.Invalidate | block_manager/block_manager.cpp:181-192 | the record's value becomes the invalidated plane, or the stream error is returned |
| PlaneBookkeeping.PlaneBookKeeping.ReturnBlock | block_manager/block_manager.cpp:194-202 | the record's value becomes the plane with the block erased and filed |
| BlockManagement.Build | block_manager/block_manager.cpp:58-129 | the manager starts valid with every plane of the device as constructed; construction fails iff a plane has too few blocks |
| BlockManagement.PlaneIds | block_manager/block_manager.cpp:67-75 | the nested loops visit exactly the planes of the device |
| BlockManagement.BlockManager.TakePage | block_manager/block_manager.cpp:131-179 | the common body of the allocators gives the plane, block, page or error of the specification |
| BlockManagement.BlockManager.AllocateBlockAndPageInPlaneForUserWrite | block_manager/block_manager.cpp:131-147 | the device after it is the specified one, the address is filled in, and the manager stays valid |
| BlockManagement.BlockManager.AllocateBlockAndPageInPlaneForGcWrite | block_manager/block_manager.cpp:149-163 | the same for the collector's open block |
| BlockManagement.BlockManager.AllocateBlockAndPageInPlaneForTranslationGcWrite | block_manager/block_manager.cpp:165-179 | the same for the translation open block |
| BlockManagement.BlockManager.InvalidatePageInBlock | block_manager/block_manager.cpp:181-192 | on any page of the device: the specified device or the stream error, and the manager stays valid iff the page was live |
| BlockManagement.BlockManager.AddErasedBlockToPool | block_manager/block_manager.cpp:194-204 | the erase as written, up to and including its own check |
| BlockManagement.BlockManager.AddErasedBlockToPoolRepaired | block_manager/block_manager.cpp:194-204 | with the intended credit the check passes and the manager stays valid |
| BlockManagement.BlockManager.MarkBlock | block_manager/block_manager.cpp:266-300 | the six counter and flag methods change that field of that block only |
| Marks.MarkMovesOne | block_manager/block_manager.cpp:266-300 | marking a block moves the one counter named up or down by one, or sets or clears the flag, and changes nothing else of the plane |
| Marks.CountersBalance | block_manager/block_manager.cpp:266-300 | after any calls each counter is its transactions started less those finished, the flag says whether a collection is under way, nothing else of the block changed |
| GcWl.SafeInvalidBlockIsFull | gc_wl/gc_wl.cpp:174-189 | under the plane invariant a safe block with an invalid page is full |
| GcWl.FullBlockIsClosed | gc_wl/gc_wl.cpp:112-122 | a full block is neither open nor free |
| GcWl.SelectedBlock | gc_wl/gc_wl.cpp:102-133 | a block a random policy selects is of the kind demanded, and safe unless there were more unsafe draws than the plane has blocks |
| SelectionLaws.FullBlockDrawn | gc_wl/gc_wl.cpp:112-133 | the candidate of the two policies that draw full blocks is full, invalid enough and safe unless the busy redraws ran out; under the plane invariant it is neither open nor free; every draw before it was not full, too little invalid, or busy with redraws left |
| SelectionLaws.AnyBlockDrawn | gc_wl/gc_wl.cpp:102-111 | the candidate of the random policy is the first draw that is not busy, or the one after as many busy draws as there are blocks |
| SelectionLaws.BestOfSample | gc_wl/gc_wl.cpp:83-101 | the candidate is the best of a sample of drawn blocks that are neither busy nor being erased; there is none iff no sample is asked for or the draws hold too few |
| SelectionLaws.NotDueSelectsNothing | gc_wl/gc_wl.cpp:57-66 | with the pool at the threshold or the allowed erases under way nothing is selected |
| SelectionLaws.GreedyIsMostInvalid | gc_wl/gc_wl.cpp:69-82 | what the greedy scan run to its bound selects, on the fields of the blocks |
| GcWl.GcWlUnit.IsSafeGcCandidate | gc_wl/gc_wl.cpp:174-189 | true iff the block is not open, has no ongoing program and no ongoing collection |
| GcWl.GcWlUnit.SelectGreedy | gc_wl/gc_wl.cpp:69-82 | run to its bound, the scan keeps the block it starts from (0, or 1 while 0 is being erased) unless a later full safe block is more invalid; then it finds the first of the most invalid of these |
| GcWl.GreedyChoice | gc_wl/gc_wl.cpp:69-82 | so the plane determines the choice, and it is full and safe iff the starting block is or a later full safe block is more invalid |
| GcWl.GcWlUnit.SelectRga | gc_wl/gc_wl.cpp:83-101 | selects nothing iff no sample is asked for or the draws hold too few distinct eligible blocks; otherwise the first block of the sample, or the first of its most invalid full ones if they are more invalid |
| GcWl.GcWlUnit.DrawSample | gc_wl/gc_wl.cpp:85-91 | the sample is exactly the eligible blocks among the draws used, and falls short only when the draws run out |
| GcWl.GcWlUnit.MostInvalid | gc_wl/gc_wl.cpp:92-99 | the second loop keeps the first block of the sample unless a full one is more invalid, and then finds the first of the most invalid full ones |
| GcWl.GcWlUnit.SelectRandom | gc_wl/gc_wl.cpp:102-111 | selects the first draw that is safe or comes after as many unsafe ones as there are blocks; nothing iff no draw does |
| GcWl.GcWlUnit.SelectRandomFull | gc_wl/gc_wl.cpp:112-133 | selects the first draw that is full with enough invalid pages and safe or out of retries, so always a full block with that many; nothing iff no draw is |
| GcWl.GcWlUnit.CheckGcRequired | gc_wl/gc_wl.cpp:57-146 | the plane changes only by the first-in-first-out pop; no candidate when no collection is due, otherwise exactly the selection of the policy from the draws |
| GcWl.GcWlUnit.StopServicingWrites | gc_wl/gc_wl.cpp:169-172 | stops iff fewer blocks are free than collections may run |
| MappingDomains.AddressMappingDomain.GetPPA | address_mapping/address_mapping.cpp:195-198 | returns the mapping's page number for the key, NO_VALUE for no page, and disturbs no entry of any stream |
| MappingDomains.AddressMappingDomain.GetPageStatus | address_mapping/address_mapping.cpp:190-193 | returns a word standing for the mapping's sector set |
| MappingDomains.AddressMappingDomain.UpdateMappingInfo | address_mapping/address_mapping.cpp:185-188 | the mapping held by the tables changes for this key and no other, shared table or not |
| MappingDomains.OneEntryChanged | address_mapping/address_mapping.cpp:185-188 | storing one packed key in a table changes the mapping of one (stream, lpa) only |
| AddressMapping.AddressMappingPageLevel.StartsValid | address_mapping/address_mapping.cpp:175-182 | over a constructed device with unmapped entries the layer starts valid and empty |
| AddressMapping.AddressMappingPageLevel.ConvertPPAtoAddress | address_mapping/address_mapping.cpp:253-266 | writes the decoded coordinates into the address, or reports an uninitialised geometry |
| AddressMapping.AddressMappingPageLevel.ConvertPPAtoNewAddress | address_mapping/address_mapping.cpp:236-251 | the form that creates the address, with the same error for an uninitialised geometry |
| AddressMapping.AddressMappingPageLevel.DecodedEntry | address_mapping/address_mapping.cpp:342 | the number stored for a mapped page decodes to that page; NO_VALUE decodes to a plane that does not exist |
| AddressMapping.AddressMappingPageLevel.AllocatePlaneForUserWrite | address_mapping/address_mapping.cpp:321-330 | fills in the home plane of the logical page |
| AddressMapping.AddressMappingPageLevel.AllocatePageInPlaneForUserWrite | address_mapping/address_mapping.cpp:332-357 | reaches the state of the write step, stays valid, and records the old page as related read iff the overwrite is partial |
| AddressMapping.AddressMappingPageLevel.AllocatePageInPlaneForGCWrite | address_mapping/address_mapping.cpp:359-380 | reaches the state of the GC step or returns its error |
| AddressMapping.AddressMappingPageLevel.OnlineCreateEntryForRead | address_mapping/address_mapping.cpp:429-441 | reaches the state of the create step or its error, for any entry; the layer stays valid iff the entry had no page |
| AddressMapping.AddressMappingPageLevel.TranslateRead | address_mapping/address_mapping.cpp:382-397 | reaches the state of the read step; the transaction carries the mapped page, and the read count of its block has gone up by one |
| AddressMapping.AddressMappingPageLevel.TranslateWrite | address_mapping/address_mapping.cpp:398-408 | reaches the state of the user-write step, or refuses and leaves the state as it was |
| AddressMapping.AddressMappingPageLevel.Admit | address_mapping/address_mapping.cpp:385-401 | finds the entry, plans the home plane, and tells whether that plane stops user writes |
| AddressMapping.AddressMappingPageLevel.StopServicingWrites | address_mapping/address_mapping.cpp:401 | true iff the home plane is short of free blocks in the state |
| AddressMapping.AddressMappingPageLevel.SameNumberSamePage | address_mapping/address_mapping.cpp:288-291 | the stored number equals a live page's number iff the entry points to that page |
| AddressMapping.AddressMappingPageLevel.SetBarrierForPhysicalBlock | address_mapping/address_mapping.cpp:273-295 | the loop reaches the state of the barrier step, or its error |
| AddressMapping.AddressMappingPageLevel.SetBarrierForLPA | address_mapping/address_mapping.cpp:297-305 | locks an unlocked page; a locked one is an error and nothing changes |
| AddressMapping.AddressMappingPageLevel.RemoveBarrierForLPA | address_mapping/address_mapping.cpp:307-319 | unlocks a locked page; an unlocked one is an error and nothing changes |
| AddressMapping.AddressMappingPageLevel.MarkBlock | block_manager/block_manager.cpp:266-300 | a counter or flag step of the block manager reaches the marked state and leaves the layer valid |
| AddressMapping.AddressMappingPageLevel.AddErasedBlockToPoolRepaired | block_manager/block_manager.cpp:194-204 | the intended erase of a fully invalidated block reaches the erased state, keeps mapping and contents, and leaves the layer valid |
| Lru.TouchByRecency | address_mapping/address_mapping.cpp:23-26 | touching a key keeps the list strictly ordered by last touch |
| Lru.LinkedPush | address_mapping/address_mapping.cpp:106-109 | pushing a node keeps every stored iterator on its own node |
| Lru.LinkedSplice | address_mapping/address_mapping.cpp:25 | splicing by the stored iterator touches exactly that key and keeps all iterators right |
| Lru.LinkedUnlink | cache_manager/cache.cpp:88-89 | erasing by the stored iterator drops exactly that key |
| Lru.LinkedPop | address_mapping/address_mapping.cpp:119-122 | popping the last node drops exactly its key |
| CachedMapping.RunKeepsCmt | address_mapping/address_mapping.cpp:8-144 | over every run map and list hold the same keys once, the table never exceeds its capacity, the list is ordered by last reserve or retrieve |
| CachedMapping.AsWrittenNothingIsUsable | address_mapping/address_mapping.cpp:44-56 | as written no run from an empty table ever holds a usable entry |
| CachedMapping.RunRemembers | address_mapping/address_mapping.cpp:89-111 | every slot keeps the stream its key was reserved with |
| CachedMapping.EvictReturnsOldest | address_mapping/address_mapping.cpp:113-124 | eviction removes the key touched longest ago and returns the logical page it was reserved for |
| CmtHistory.SlotsHoldHistory | address_mapping/address_mapping.cpp:30-144 | over every run a present key is usable iff filled since its reservation; then it has the page number and bitmap of the last fill, insertion or update and is dirty iff an update came after the last fill, insertion or cleaning |
| CmtHistory.LastStoredIsHeld | address_mapping/address_mapping.cpp:30-56 | that history means the last storing operation on the key, with no reservation since |
| CmtHistory.FaultsExact | address_mapping/address_mapping.cpp:15-144 | exactly when each operation of the table fails, and with which error |
| CmtHistory.KeysChange | address_mapping/address_mapping.cpp:88-124 | only reservations add a key, only evictions remove one, the last of the list |
| CmtHistory.OnlyReservedKeys | address_mapping/address_mapping.cpp:88-111 | every key in the table was reserved |
| CachedMapping.CachedMappingTable.Exists | address_mapping/address_mapping.cpp:8-13 | true iff the key is present and usable |
| CachedMapping.CachedMappingTable.RetrievePPA | address_mapping/address_mapping.cpp:15-28 | returns the entry's page number and moves the key to the front, iterators intact |
| CachedMapping.CachedMappingTable.Update | address_mapping/address_mapping.cpp:30-42 | replaces the entry of a usable key and marks it dirty, leaves the order alone |
| CachedMapping.CachedMappingTable.Insert | address_mapping/address_mapping.cpp:44-56 | as written: demands a usable entry |
| CachedMapping.CachedMappingTable.InsertRepaired | address_mapping/address_mapping.cpp:44-56 | as intended: fills a waiting entry |
| CachedMapping.CachedMappingTable.GetBitMap | address_mapping/address_mapping.cpp:58-68 | returns the entry's bitmap, or the error iff it is not usable |
| CachedMapping.CachedMappingTable.IsSlotReservedForLpnAndWaiting | address_mapping/address_mapping.cpp:70-82 | true iff the key is present and waiting |
| CachedMapping.CachedMappingTable.CheckFreeSlotAvailability | address_mapping/address_mapping.cpp:83-86 | true iff reserving an absent key succeeds |
| CachedMapping.CachedMappingTable.ReserveSlotForLpn | address_mapping/address_mapping.cpp:88-111 | adds a waiting entry at the front; duplicate and overfull are errors, in that order |
| CachedMapping.CachedMappingTable.EvictOne | address_mapping/address_mapping.cpp:113-124 | drops the last key from both structures and returns its slot and logical page |
| CachedMapping.CachedMappingTable.IsDirty | address_mapping/address_mapping.cpp:126-135 | returns the dirty flag, or the error iff the entry is not usable |
| CachedMapping.CachedMappingTable.MakeClean | address_mapping/address_mapping.cpp:136-144 | clears the dirty flag of a usable entry only |
| DataCaching.OrderIsStack | cache_manager/cache.cpp:29-144 | after any trace the list is the first part, capacity long, of the trace's recency stack |
| DataCaching.StackInclusion | cache_manager/cache.cpp:29-144 | the list of a smaller cache is always the first part of the list of a larger one |
| DataCaching.CacheIsTransparent | cache_manager/cache.cpp:29-144 | with dirty evictions and flushes written back, cache over backing store is for every 56-bit logical page a plain lpa map, and every read is answered from it |
| DataCaching.KeyedCacheIsTransparent | cache_manager/cache.cpp:29-144 | the same by packed key, for all keys |
| DataCaching.ExecIsPlain | cache_manager/cache.cpp:29-144 | one host operation changes what the host sees of logical pages exactly as on a plain lpa map |
| DataCaching.EvictionIsInvisible | cache_manager/cache.cpp:42-64 | evicting with write-back changes nothing the host sees |
| DataCaching.LoadIsExact | cache_manager/cache.cpp:93-129 | loading a page after making room changes what the host sees for that page only |
| DataCaching.InsertSafeExactly | cache_manager/cache.cpp:93-129 | an insertion's own eviction loses nothing, whatever is stored, iff the cache has room or its last page is not dirty |
| DataCaching.OneWriteCanBeLost | cache_manager/cache.cpp:112-129 | after one write into a cache of one page, the next insertion of another page loses it |
| DataCaching.InsertsExactly | cache_manager/cache.cpp:93-129 | after inserting an absent key into any well-formed cache it holds exactly the given page, every other key still there keeps its own, and the one missing is the last of the list, only if the cache was full |
| DataCaching.LooksUpExactly | cache_manager/cache.cpp:29-40 | a lookup moves a present key to the front, keeps the order of the others and every page |
| DataCaching.UpdatesExactly | cache_manager/cache.cpp:131-144 | an update replaces the whole page of a present key and moves it to the front; nothing else changes |
| DataCaching.RemovesExactly | cache_manager/cache.cpp:84-91 | a removed key is gone from pages and list, everything else stays |
| DataCaching.FlushesExactly | cache_manager/cache.cpp:76-82 | the page is marked as flushed, its other fields, the others and the order stay |
| DataCaching.EvictsLastExactly | cache_manager/cache.cpp:66-74 | the last key leaves with its page unchanged; an empty cache returns the default slot |
| DataCaching.EvictsDirtyExactly | cache_manager/cache.cpp:42-64 | the last key with a dirty page leaves with it; with none the last key leaves, its page marked empty |
| DataCaching.DataCache.Exists | cache_manager/cache.cpp:8-11 | true iff the key is cached |
| DataCaching.DataCache.GetSlot | cache_manager/cache.cpp:29-40 | returns the page and moves it to the front, or a default slot |
| DataCaching.DataCache.LastDirtyNode | cache_manager/cache.cpp:47-57 | the reverse scan finds the least recently used dirty page, or none iff there is none |
| DataCaching.DataCache.EvictOneDirtyPage | cache_manager/cache.cpp:42-64 | evicts the least recently used dirty page, or the last page marked empty |
| DataCaching.DataCache.EvictOnePageLRU | cache_manager/cache.cpp:66-74 | evicts the last page, or returns a default slot |
| DataCaching.DataCache.ChangeSlotStatusToWriteBack | cache_manager/cache.cpp:76-82 | changes the status of that page only |
| DataCaching.DataCache.RemoveSlot | cache_manager/cache.cpp:84-91 | as intended: drops the key from both structures |
| DataCaching.DataCache.InsertReadData | cache_manager/cache.cpp:93-110 | inserts a clean page at the front, evicting the last when full; a present key is left alone |
| DataCaching.DataCache.InsertWriteData | cache_manager/cache.cpp:112-129 | the same with a dirty page |
| DataCaching.DataCache.UpdateData | cache_manager/cache.cpp:131-144 | replaces a present page, marks it dirty and moves it to the front |
| NandChips.PagesHoldLastWritten | nand_chip/nand_chip.cpp:64-113 | a page holds what was last programmed into it since its block was last erased, and erased bytes otherwise |
| NandChips.ReadsAnswerLastWritten | nand_chip/nand_chip.cpp:99-113 | a read in range answers what the commands before it last wrote |
| NandChips.RepliesAreSerial | nand_chip/nand_chip.cpp:52-159 | in every interleaving the fulfilled replies are those of a prefix of the pushed commands, in push order, as in sequential execution |
| NandChips.IdleMeansDone | nand_chip/nand_chip.cpp:115-126 | a worker waiting on an empty queue has answered every pushed command |
| NandChips.StopServesAtMostOne | nand_chip/nand_chip.cpp:117-126 | after the stop flag is set at most one more command is served |
| NandChips.ReplyIsSettled | nand_chip/nand_chip.cpp:52-62 | the reply a command gets is settled when it is pushed; later pushes do not change it |
| NandChips.TurnAnswers | nand_chip/nand_chip.cpp:127-157 | the command in the worker's hands gets the reply sequential execution of all pushed commands gives it |
| ChipProgress.NoCommandStarves | nand_chip/nand_chip.cpp:115-158 | while the stop flag is down, three turns of the worker for each command outstanding answer them all, whatever is pushed meanwhile |
| ChipProgress.ThreeTurnsEach | nand_chip/nand_chip.cpp:115-158 | from any state of a behaviour, 3n turns and nothing else answer the n commands queued or in hand as in sequential execution |
| ChipProgress.TurnMoves | nand_chip/nand_chip.cpp:115-158 | what each turn does, by the place of the worker: the flag at the head, the front of a nonempty queue even with the flag up, the answer of the command in hand |
| ChipProgress.ExitNeedsStop | nand_chip/nand_chip.cpp:117-126 | the worker exits only with the flag up, and from the wait only on an empty queue |
| ChipProgress.StopEndsWorker | nand_chip/nand_chip.cpp:27-31 | the flag ends the worker within three turns |
| ChipProgress.RepliesTellOutcome | nand_chip/nand_chip.cpp:64-113 | every reply is the status of its command by range, with the last written data or a blank page for a read |
| NandChips.NandChip.PushCommand | nand_chip/nand_chip.cpp:52-62 | a push step of the interleaving model: the chip stays a state of it, and the future is bound to the reply at the command's place in push order, which is still open |
| NandChips.NandChip.ReadPage | nand_chip/nand_chip.cpp:99-113 | status and data of the read command |
| NandChips.NandChip.WritePage | nand_chip/nand_chip.cpp:83-97 | overwrites that page with one page of data; a null or out-of-range argument gives -1 and changes nothing |
| NandChips.NandChip.EraseBlock | nand_chip/nand_chip.cpp:64-81 | the page loop fills exactly the block with erased bytes |
| NandChips.NandChip.WorkerTurn | nand_chip/nand_chip.cpp:115-158 | a worker step of the interleaving model; a fulfilled promise holds what the next command in push order gets in sequential execution |
| NandChips.NandChip.StopWorker | nand_chip/nand_chip.cpp:27-31 | a stop step of the interleaving model |
| NandChips.NandChip.ServeTask | nand_chip/nand_chip.cpp:129-156 | the switch answers and changes pages as the executed command |

## Left out

- The page content and owner are recorded at allocation; the time between allocation and the program command, and the transaction scheduler in between, are not modelled.
- Collection of translation blocks is outside the translation-layer runs: their pages have no mapping entry. Their allocator is covered by the plane runs.
- The slots of both caches are values in a map next to their list position; sharing of slot objects with callers is not captured.
- The pages of a chip are one map from addresses to buffers instead of nested vectors.
- Eviction from the mapping table inside translation-layer runs: nothing in the source calls it there, and the default capacity is all logical pages.
- Transactions queued behind barriers or overfull planes: their release is not written in the source.
- Threads, mutexes and promises of the chip are atomic steps, and the address of a command is captured by value when it is pushed.
- NandChips.NandChip.PushCommand: requires the data of a program command to hold a page, because a shorter buffer is read past its end.
- NandChips.NandChip.WritePage: requires non-null data to hold a page, because a shorter buffer is read past its end.
- GcWl.GcWlUnit.SelectRandomFull: termination of the random retry loops depends on the draws; a finite supply of draws stands for them, and the result is stated for every supply.
- Wrap-around of the 64-bit counters and erase counts.
- The random bad-block list of a plane, which reads and writes never consult.
- Floating-point thresholds of the collection unit are integer parameters.
- Urgent-mode detection, the coldest-block scan, the erase-count spread and plain getters, which would add only easy members.
- The classes FTL, CacheManager and UserRequest, which have no behaviour in the source.
