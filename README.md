# Page migration in `mm/migrate.c`, modelled in Dafny

This project models the page-migration engine of a Linux kernel fork that
adds accelerated page copies (multi-threaded and DMA backends), a batched
"concurrent" migration path and a table that pairs each persistent-memory
(PMEM) node with its nearest CPU node. The model covers these pieces:

- **Frames.** A `struct page` is the `Frames.Frame` record. It holds the
  reference count, mapping, index, flag bits, private value, cpupid, node,
  zone and content. All frames live in one `Frames.Memory` object, together
  with the node/zone statistics and the vm event counters. The page cache
  of an address space is `MoveMapping.AddressSpace.iPages`, a map from index
  to frame.
- **Mapping handoff.** The reference-count gate of
  `migrate_page_move_mapping()` and the slot repointing, dirty transfer and
  zone accounting it performs.
- **State carry-over.** The flag table of `migrate_page_states()`.
- **Copy engine.** How `migrate_page_copy()`, `copy_huge_page()` and
  `__copy_gigantic_page()` choose a backend, and their fallback to a plain
  copy.
- **Page moves.** `migrate_page()`, `move_to_new_page()`,
  `fallback_migrate_page()`, `writeout()`, `isolate_movable_page()` and
  `buffer_migrate_lock_buffers()`.
- **Serial orchestrator.** `migrate_pages()` with its retry passes, and the
  per-page decisions of `unmap_and_move()` / `__unmap_and_move()`.
- **Concurrent orchestrator.** `migrate_pages_concur()`: one unmap pass over
  an array of work items, each tagged with the list it is on. Then the
  batched stages `move_mapping_concurr()`, `copy_to_new_pages_concur()` and
  `remove_migration_ptes_concurr()`, and the serial fallback for whatever
  is left on the caller's list.
- **move_pages().** The flag and privilege checks of `kernel_move_pages()`.
  The `do_pages_move()` walk, which groups consecutive requests for one node
  into batches, and `store_status()`. The query path `do_pages_stat()` /
  `do_pages_stat_array()` and `add_page_for_migration()`.
- **Topology table.** The build-once PMEM-to-CPU table
  (`init_closest_cpu_node_for_pmem_list_kernel()`, `get_nearest_cpu_node()`).

Decisions the kernel delegates to other code become inputs of the model.
These include lock trylocks, page allocation, the accelerated backends'
results, filesystem callbacks, user-memory faults and the results of the
batches `do_pages_move()` hands over.

Modules, one per file:

| module | file |
|---|---|
| `Errno` | errno.dfy |
| `Wrappers` | wrappers.dfy |
| `Frames` | frames.dfy |
| `Modes` | mode.dfy |
| `MoveMapping` | move_mapping.dfy |
| `PageStates` | page_states.dfy |
| `CopyEngine` | copy_engine.dfy |
| `MigratePage` | migrate_page.dfy |
| `UnmapStage` | unmap_stage.dfy |
| `SerialBatch` | serial_batch.dfy |
| `ConcurBatch` | concur_batch.dfy |
| `Topology` | topology.dfy |
| `MovePages` | placement.dfy |

### Behaviour worth noting

- **`migrate_pages_concur()` runs one pass.** Its loop is `pass < 1`, so `force` (`pass > 2`) is
  never true on the concurrent path. On `-ENOMEM` the code tests
  `PageTransHuge()` of a `page` variable that is never set from the current
  item. The model takes that test as an input (`ConcurEnv.staleThp`).
- **The serial fallback takes the whole remaining list.** After the batch,
  `migrate_pages()` runs on every page still on the caller's list, not only
  on the pages marked as serialized. Its result replaces
  `nr_failed + retry`.
- **Success is counted before the mapping move.** `nr_succeeded` counts
  every item that reached the unmapped list, including items that
  `move_mapping_concurr()` later bounces back because of an unexpected
  reference. Those pages stay on the caller's list and go through the
  serial path as well.
- **`do_pages_move()` can return 1.** It returns the last `err` when the
  page list is empty at `out_flush`. A hugetlbfs page that was not isolated sets `err`
  to 1 without queuing anything, because the result of
  `isolate_huge_page()` is ignored. If it is the last request and nothing
  else is on the page list, the call returns 1 and the status entries of
  its group are never written. If an earlier request of the same group
  queued a page, the final flush and store reset `err` and the call
  returns 0.
- **A failed batch also counts the unattempted requests.** When a batch
  reports a positive count, `do_pages_move()` adds the number of requests
  it has not attempted (`nr_pages - i - 1`).
- **MOVE_ALL without CAP_SYS_NICE fails the whole call.** `-EPERM` is
  returned for the whole call before any page is looked at. A multi-mapped page
  without MOVE_ALL gets `-EACCES` as its own status.
- **A PMEM node with no close CPU keeps its old entry.** If no CPU node is
  nearer than distance 256, the initialisation leaves that node's old
  table entry in place.

## Model

| member | source | states |
|---|---|---|
| Frames.ExpectedPageRefs | mm/migrate.c:420-433 | The expected count is at least 1. Without a mapping it is 1, or 2 for a device-private page. With a mapping it adds one reference per sub-page, plus one for private data. For a base page this gives the 1/2/3 table. |
| Frames.Bump | mm/migrate.c:1956-1958 | Adjusting one counter changes that counter by exactly `d` and leaves every other counter alone. |
| MoveMapping.Repoint | mm/migrate.c:503-509 | After repointing, the slots are the old slots plus the span. Every slot in the span holds the new page, and every slot outside it is unchanged. |
| MoveMapping.Transfer | mm/migrate.c:534-535 | Moving `d` from one counter to another keeps their sum. It changes only those two counters. |
| MoveMapping.ZoneAccounting | mm/migrate.c:533-548 | When old and new page share a zone, the counters are untouched. |
| MoveMapping.NodeAccountingBalanced | mm/migrate.c:533-548 | For every node item, the zone accounting keeps the sum over the old and new nodes. It leaves every other node alone. |
| MoveMapping.NodeTransfersBalanced | mm/migrate.c:534-543 | The node part of the accounting keeps the two nodes' sum for every item. It leaves other nodes alone. |
| MoveMapping.TransferNodePair | mm/migrate.c:534-543 | A one-page node transfer keeps every node item's sum over the pair. It leaves every other node alone. |
| MoveMapping.ZoneTransferKeepsNodes | mm/migrate.c:542-544 | Moving a zone counter leaves every node counter alone. |
| MoveMapping.ZoneCounterBalanced | mm/migrate.c:533-548 | The accounting keeps the old and new zones' sum of NR_ZONE_WRITE_PENDING. It leaves other zones alone. |
| MoveMapping.NodeTransfersKeepZones | mm/migrate.c:534-543 | The node transfers leave every zone counter alone. |
| MoveMapping.ZoneAccountingMoves | mm/migrate.c:533-548 | Across nodes and zones, the new node gains one file page. It gains one shmem page for a swap-backed page outside the swap cache. It gains one dirty page and one write-pending page when the page was dirty and the mapping accounts dirty pages. |
| MoveMapping.HandoffGate | mm/migrate.c:443-550 | The result is 0 or -EAGAIN. It is -EAGAIN exactly when the count differs from expected plus extra, or when the slot no longer holds the page. On -EAGAIN, frames, slots and counters are unchanged. Only the two pages change, and neither page's content. |
| MoveMapping.HandoffIdentity | mm/migrate.c:451-487 | On success the new page takes the old page's index and mapping, and is swap-backed when the old page was. Without a mapping only the new page changes, and its count stays the same. |
| MoveMapping.HandoffWithMapping | mm/migrate.c:469-518 | On success every slot of the old page's span holds the new page, and other slots are unchanged. The new page gains nr_pages references and the old page is left at expected + extra - nr_pages. Dirty moves from old to new, and the old page keeps its index and mapping. A swap-cache page hands over SwapCache and its private value. |
| MoveMapping.StoreSlots | mm/migrate.c:503-509 | The xas_store loop leaves the mapping's slots equal to the repointed map. |
| MoveMapping.MigratePageMoveMapping | mm/migrate.c:443-550 | The new frames, slots, counters and result are those of the handoff specification (Handoffs). Events are unchanged. |
| PageStates.CarriedFlags | mm/migrate.c:663-721 | The listed flags are copied to the new page and kept on the old one. Active is test-and-cleared on the old page and set on the new one. Unevictable moves only when the page was not active. The new page never ends in writeback. |
| PageStates.OldFlagsKept | mm/migrate.c:663-721 | The old page keeps exactly its flags minus SwapCache, Private and its LRU bit. |
| PageStates.StatesIdentity | mm/migrate.c:697-708 | The new page receives the old cpupid and the old page gets -1. The old page's private value is cleared. Count, mapping, index and content are untouched on both pages. |
| PageStates.StatesNewIdempotent | mm/migrate.c:663-721 | Carrying states a second time, from the old page's new state, adds no flag to the new page. |
| PageStates.CarryEarly | mm/migrate.c:667-672 | Error, Referenced and Uptodate are set on the new page when the old page has them, and no other flag is added. |
| PageStates.CarryLate | mm/migrate.c:678-692 | Workingset, Checked, MappedToDisk, Dirty, young and idle are carried the same way. |
| PageStates.CarryFlags | mm/migrate.c:663-721 | The flag steps in source order yield exactly the table's old and new flag sets. |
| PageStates.MigratePageStates | mm/migrate.c:663-721 | Only the two pages change: the new page becomes StatesNew and the old page StatesOld. Counters and events are unchanged. |
| CopyEngine.BackendChoice | mm/migrate.c:617-742 | A huge copy uses MT whenever accel_page_copy is set or the remote-PMEM sysctl is 1, so with the defaults it always uses MT. Otherwise it uses MT, then DMA, then none. A base-page copy tries DMA before MT. A gigantic page never uses MT. |
| CopyEngine.RunBackend | mm/migrate.c:645-651 | A backend reports 0 exactly when one was chosen and it copied, and then the destination equals the source. Any failure is -EFAULT. |
| CopyEngine.CopyHighpages | mm/migrate.c:652-656 | The per-sub-page plain copy leaves the destination equal to the source. |
| CopyEngine.CopyGiganticPage | mm/migrate.c:594-615 | Copying a gigantic page sub-page by sub-page, through the backend with plain fallback, yields the source. |
| CopyEngine.CopyHugePage | mm/migrate.c:617-658 | Whatever the backend does, the destination equals the source. The backend used is the gigantic or the huge choice. |
| CopyEngine.CopyPage | mm/migrate.c:724-739 | Every page kind ends with the destination equal to the source. The backend is CopyBackend. |
| CopyEngine.MigratePageCopy | mm/migrate.c:724-742 | The new page's content equals the old page's content, and the states are carried over. Counters are unchanged. |
| MigratePage.MigratePageOnce | mm/migrate.c:755-791 | On a failed handoff nothing changes. On success the states are carried, plus the content unless the mode is SYNC_NO_COPY. The new page then holds the old content. |
| MigratePage.Writeout | mm/migrate.c:946-982 | The result is -EINVAL exactly without a writepage. It is -EIO exactly when the page was cleared for I/O and writepage failed. Otherwise it is -EAGAIN. |
| MigratePage.FallbackDecisions | mm/migrate.c:987-1006 | A dirty page is written out only in full sync mode; otherwise it is -EBUSY. A clean page with private data it cannot release is -EAGAIN in full sync and -EBUSY otherwise. Any other page goes on to migrate_page. |
| MigratePage.AfterMove | mm/migrate.c:1069-1091 | After a successful move, a driver page loses its isolated flag. A page without mapping flags loses its mapping. Count, content and index are kept. |
| MigratePage.RouteCases | mm/migrate.c:1024-1063 | The dispatch is exhaustive and exclusive. An LRU page without a mapping migrates directly. A mapping with a callback uses it, otherwise the fallback. A driver page uses the driver callback, or succeeds at once if the driver has released it. |
| MigratePage.MoveToNewPage | mm/migrate.c:1019-1094 | The result per route: released driver pages succeed and only lose isolation. Callbacks return their own result. A fallback refusal changes no frame; the Dirty bit that writeout() clears is not modelled (see "## Left out"). A direct move, or a fallback that reaches migrate_page(), returns the handoff result, and on success leaves the frames of migrate_page() with the old page cleaned up. The new page then has the old page's index and mapping, and its content unless the mode is SYNC_NO_COPY. A successful callback only cleans the old page up. Any failure leaves the frames unchanged. |
| MigratePage.IsolateMovablePage | mm/migrate.c:105-164 | It succeeds exactly when the page can be isolated, and then the page gains one reference and the isolated flag. Otherwise it returns -EBUSY and nothing changes. |
| MigratePage.BufferMigrateLockBuffers | mm/migrate.c:796-831 | Success means every buffer is locked. Outside async mode it always succeeds. In async mode it succeeds exactly when no buffer was locked before, and on failure it rolls every lock back. |
| UnmapStage.UnmapAndMoveCases | mm/migrate.c:1276-1423 | A page stays on the list exactly on -EAGAIN, or on an -ENOMEM raised before the move (a THP without THP migration support, or a failed allocation). Every other result takes it off, including an -ENOMEM from the move itself. Without THP support a THP is -ENOMEM. A page whose only holder is the migrator succeeds at once. A refused lock is -EAGAIN, and writeback outside full sync is -EBUSY. |
| UnmapStage.UnmapPageConcur | mm/migrate.c:1534-1678 | A successful unmap of a non-driver page needed both locks. It also needed the page not to be an orphan with private data. page_was_mapped is set only on success, and only for a mapped page that has a mapping. |
| UnmapStage.ConcurStageCases | mm/migrate.c:1680-1802 | hugetlbfs, driver and file pages are -ENODEV. On success the page leaves the list exactly when it was freed. -EAGAIN, -ENOMEM and -ENODEV keep the page queued. A refused lock is -EAGAIN. |
| SerialBatch.PassKeepsFrames | mm/migrate.c:2199-2262 | A pass only keeps pages that are frames. |
| SerialBatch.PassAfterStop | mm/migrate.c:2216-2243 | Once a pass stops on -ENOMEM, the rest of the list is kept untouched. |
| SerialBatch.StoppedFold | mm/migrate.c:2216-2243 | After a stop, every later prefix of the pass only appends the pages it walks past. |
| SerialBatch.StoppedStep | mm/migrate.c:2216-2243 | After a stop, one more page is appended unchanged. |
| SerialBatch.AttemptShape | mm/migrate.c:2210-2258 | An -EAGAIN page stays on the list. Any result other than -EAGAIN or -ENOMEM takes it off. |
| SerialBatch.StepCounts | mm/migrate.c:2210-2258 | Each page lands in exactly one of kept, succeeded or failed. retry grows with the kept pages. Nothing is invented. |
| SerialBatch.PassCounts | mm/migrate.c:2199-2262 | A pass conserves pages: kept + succeeded + failed grows by the list length. Kept pages come from the list. |
| SerialBatch.ConservesTrans | mm/migrate.c:2199-2262 | Page conservation composes across passes. |
| SerialBatch.PassesCounts | mm/migrate.c:2199-2262 | The bounded passes conserve the pages of the list. |
| SerialBatch.PassesOn | mm/migrate.c:2199-2262 | A pass that still has retries conserves pages through all later passes. |
| SerialBatch.PassOnce | mm/migrate.c:2199-2262 | One pass advances the pass count and conserves pages. After a stop no further pass runs. |
| SerialBatch.SerialResult | mm/migrate.c:2180-2285 | Without a stop, the result is failed plus the pages still retried, and succeeded + result equals the list length. The result is 0 exactly when every page migrated. The list left behind is a sub-multiset of the input. |
| SerialBatch.PageStep | mm/migrate.c:2210-2258 | One page's attempt updates the counters as the specification step does. |
| SerialBatch.RunPass | mm/migrate.c:2199-2262 | One pass over the list leaves the list and counters of the specification pass. |
| SerialBatch.PassTurn | mm/migrate.c:2199-2262 | A pass turn preserves the remaining passes' result. |
| SerialBatch.MigratePages | mm/migrate.c:2180-2285 | The result, the list left behind, the node counters and the events are those of the pass specification. The model records each page's move as its result code only, so the frames stay as they were (see "## Left out"). |
| ConcurBatch.Filter | mm/migrate.c:2086-2087 | Removing pages keeps exactly the pages not removed. |
| ConcurBatch.FilterTwice | mm/migrate.c:1955 | Removing two sets in turn equals removing their union. |
| ConcurBatch.FilterNone | mm/migrate.c:1955 | Removing nothing keeps the list. |
| ConcurBatch.Land | mm/migrate.c:2071-2101 | Landing an item sets its list and keeps its page. |
| ConcurBatch.Reach | mm/migrate.c:2075-2079 | The walk stops at most at the end of the list. |
| ConcurBatch.ReachAt | mm/migrate.c:2050-2102 | The walk reaches the first item whose -ENOMEM aborts the pass, or the end. |
| ConcurBatch.PassItems | mm/migrate.c:2050-2102 | The pass yields one item per page. |
| ConcurBatch.TallySamePrefix | mm/migrate.c:2050-2102 | The counters depend only on the lists of the items walked. |
| ConcurBatch.TallyStep | mm/migrate.c:2071-2101 | Each walked item increments exactly the counter of its list. |
| ConcurBatch.TallyTotal | mm/migrate.c:2071-2101 | Every walked item lands in exactly one place: wip, unmapped, serialized, failed or unlisted. |
| ConcurBatch.PassPlaces | mm/migrate.c:2047-2103 | For each walked page: it is still on the caller's list exactly when its item is on wip, serialized or unmapped. An unmapped item holds its page and its new page. An unlisted item holds no page. Items after an abort are untouched. |
| ConcurBatch.DroppedHas | mm/migrate.c:2050-2102 | A walked page leaves the caller's list exactly when its attempt took it off. |
| ConcurBatch.DroppedLacks | mm/migrate.c:2050-2102 | A page not yet walked is still on the caller's list. |
| ConcurBatch.LandedStep | mm/migrate.c:2071-2101 | Landing the next item extends the pass invariant by one. |
| ConcurBatch.LandedPass | mm/migrate.c:2047-2103 | When the walk ends, the items are the pass's specification. |
| ConcurBatch.UnmapItem | mm/migrate.c:2050-2101 | One item's attempt and switch: an abort changes nothing. Otherwise the page leaves the caller's list iff dequeued, and the isolated counter drops for it. The item lands on the verdict's list. |
| ConcurBatch.IsolationNext | mm/migrate.c:1680-1802 | A dequeued non-driver page lowers its node's isolated counter by its sub-page count. Exactly it is dropped from the list. |
| ConcurBatch.UnmapPass | mm/migrate.c:2047-2103 | The unmap pass leaves the pass specification. The counters are the tallies of unmapped, failed and wip. The caller's list loses the dropped pages and the isolated counters drop for them. |
| ConcurBatch.UnmapTurn | mm/migrate.c:2050-2101 | One turn preserves the unmap invariant and advances unless it aborts. |
| ConcurBatch.UnmappedStart | mm/migrate.c:2047-2049 | The unmap invariant holds before the walk. |
| ConcurBatch.UnmapLoop | mm/migrate.c:2050-2102 | The loop ends at the end of the list or at the first aborting item, with the unmap invariant. |
| ConcurBatch.Apply | mm/migrate.c:1812-1914 | A stage applied to one item keeps every frame's kind and size. |
| ConcurBatch.FoldDown | mm/migrate.c:1812-1914 | A stage over the whole unmapped list keeps frames, kinds and sizes. |
| ConcurBatch.FoldStep | mm/migrate.c:1812-1914 | The batch stage is the item stage after the rest of the batch. |
| ConcurBatch.ApplyOther | mm/migrate.c:1812-1914 | A stage on one item leaves other pages alone. |
| ConcurBatch.ApplySame | mm/migrate.c:1812-1914 | A stage's effect on an item depends only on that item's two pages. |
| ConcurBatch.FoldOther | mm/migrate.c:1812-1914 | A batch stage leaves pages of no item alone. |
| ConcurBatch.DisjointOwns | mm/migrate.c:1812-1914 | With distinct pages, each item's pages belong to it alone. |
| ConcurBatch.FoldHere | mm/migrate.c:1812-1914 | An item's own pages end as the stage on that item makes them. |
| ConcurBatch.FoldSkip | mm/migrate.c:1812-1914 | Skipping an item that does not own a page leaves that page as it was. |
| ConcurBatch.FoldAt | mm/migrate.c:1812-1914 | Over the whole batch, an item's pages end as its own stage makes them. |
| ConcurBatch.FoldReach | mm/migrate.c:1812-1914 | Items that do not touch a page leave it as the later ones made it. |
| ConcurBatch.Bounced | mm/migrate.c:1822-1838 | Bouncing maps each item through the unexpected-reference test. |
| ConcurBatch.BouncedFits | mm/migrate.c:1822-1838 | Bouncing keeps the batch well formed and disjoint. |
| ConcurBatch.MovedFrames | mm/migrate.c:1812-1844 | Moving mappings keeps the frames and a well-formed bounced batch. |
| ConcurBatch.CopiedFrames | mm/migrate.c:1849-1927 | Copying keeps the frames. |
| ConcurBatch.BatchFrames | mm/migrate.c:2115-2122 | The three stages keep the frames. |
| ConcurBatch.ApplyMoveAt | mm/migrate.c:1840-1843 | When the old page has only the migrator's reference, the new page takes its index, mapping and swap-backed flag. The old page is untouched. |
| ConcurBatch.ApplyCopyAt | mm/migrate.c:1895-1910 | The copy stage gives the new page the old page's content. |
| ConcurBatch.ApplyStatesAt | mm/migrate.c:1912-1914 | The state stage applies the carry-over table to both pages. |
| ConcurBatch.MovedAt | mm/migrate.c:1812-1844 | In the batch, each kept item's new page takes over the identity. |
| ConcurBatch.CopiedAt | mm/migrate.c:1849-1927 | After move and copy, each kept item's new page has the identity and the old content. |
| ConcurBatch.BatchMigrates | mm/migrate.c:2115-2122 | After the three stages, each kept item's new page has the old page's identity, content and carried states. The old page has the old-page state. |
| ConcurBatch.BouncedUntouched | mm/migrate.c:1822-1838 | A bounced item's pages are touched by no later stage. |
| ConcurBatch.BouncedKeepsOut | mm/migrate.c:1822-1838 | Bouncing adds no page to the batch. |
| ConcurBatch.BatchBounces | mm/migrate.c:1822-1838 | An item with an unexpected reference leaves both its pages exactly as they were. |
| ConcurBatch.BatchLeaves | mm/migrate.c:2115-2122 | Pages outside the batch are unchanged. |
| ConcurBatch.MoveOne | mm/migrate.c:1812-1844 | One item's mapping move: the frames change as the move stage says, and the item is bounced or kept. |
| ConcurBatch.MoveMappingConcurr | mm/migrate.c:1804-1847 | The frames become MovedFrames, and the items are the bounced batch. |
| ConcurBatch.CopyOne | mm/migrate.c:1903-1909 | A plain re-copy applies the copy stage to one item. |
| ConcurBatch.CopyBulk | mm/migrate.c:1895-1900 | The bulk copy succeeds exactly when DMA or MT is asked for and the backend copies. It then copies every item, and on failure changes nothing. |
| ConcurBatch.CopyOneAgain | mm/migrate.c:1904-1908 | A per-item fallback copy applies the copy stage. |
| ConcurBatch.CopyAgain | mm/migrate.c:1902-1910 | When the bulk copy fails, every item of the unmapped list is re-copied, not only a failing one. |
| ConcurBatch.StatesOne | mm/migrate.c:1913 | One item's carry-over applies the state stage. Counters are unchanged. |
| ConcurBatch.StatesAll | mm/migrate.c:1912-1914 | Carry-over runs for every item. |
| ConcurBatch.CopyToNewPagesConcur | mm/migrate.c:1849-1927 | The result is always 0. The frames are the copy stage then the state stage over the whole list, whichever backend path ran. |
| ConcurBatch.ReleaseUnlists | mm/migrate.c:1955 | Releasing the batch takes exactly the batch's old pages off the caller's list. |
| ConcurBatch.PassBatchReady | mm/migrate.c:2047-2103 | The unmapped items of a pass form a well-formed batch with distinct pages. |
| ConcurBatch.Retired | mm/migrate.c:1961-1974 | Retiring clears every batched item and keeps the rest. |
| ConcurBatch.PassStaged | mm/migrate.c:2047-2103 | After the pass, the caller's list holds only its own pages. |
| ConcurBatch.BatchOf | mm/migrate.c:2115-2122 | The batch keeps the frames and only removes pages from the caller's list. |
| ConcurBatch.ConcurStaged | mm/migrate.c:2047-2122 | The whole concurrent stage keeps the frames and only removes pages from the caller's list. |
| ConcurBatch.PassListed | mm/migrate.c:2047-2103 | After the pass, a page is on the caller's list exactly when its item is on wip, serialized or unmapped. An unmapped item carries its new page. |
| ConcurBatch.BatchOldsAt | mm/migrate.c:1955 | A page is among the batch's old pages exactly when its item is batched. |
| ConcurBatch.BatchPlaces | mm/migrate.c:2115-2122 | After the batch, a page stays on the caller's list exactly when its item is on wip or serialized. A bounced item counts as wip. A migrated item has released both pages. |
| ConcurBatch.BatchOfShape | mm/migrate.c:2115-2122 | The batch's items are the bounced items retired. The list loses exactly their old pages. |
| ConcurBatch.StagedPlaces | mm/migrate.c:2047-2122 | After the whole stage, a page is left for the serial fallback exactly when its item ended on wip or serialized. |
| ConcurBatch.StagedMigrates | mm/migrate.c:2047-2122 | Every item that ends migrated has its new page with the old identity, the old content and the carried states. |
| ConcurBatch.CountEvent | mm/migrate.c:2133-2136 | count_vm_events adds n to its event and nothing else. |
| ConcurBatch.UnmappedEmpty | mm/migrate.c:2105 | list_empty(unmapped) is true exactly when no item is on the unmapped list. |
| ConcurBatch.RemoveOne | mm/migrate.c:1936-1982 | One item's retirement releases it and lowers the isolated counter. |
| ConcurBatch.RemoveMigrationPtesConcurr | mm/migrate.c:1929-1985 | The list and counters are released for every item, and every item is retired. |
| ConcurBatch.BatchStages | mm/migrate.c:2115-2122 | The frames become the batch specification. The list and counters are released for the bounced batch, and events are unchanged. |
| ConcurBatch.Pass | mm/migrate.c:2047-2103 | The pass leaves items, frames, list and counters as the pass specification says. |
| ConcurBatch.RunStages | mm/migrate.c:2047-2122 | Pass and batch leave the staged specification. |
| ConcurBatch.MigratePagesConcur | mm/migrate.c:1987-2157 | The result, frames, list, counters and events are those of the outcome specification: stages, then the serial fallback on what is left, in the call's own mode, then the events. The frames are those the batched stages made; pages the serial fallback moves are recorded by their result codes only (see "## Left out"). |
| Topology.NodeCpuIsLast | mm/migrate.c:2331-2339 | A node's CPU is -1 exactly when no CPU is on that node. Otherwise it is the last CPU on the node. |
| Topology.ClosestExists | mm/migrate.c:2351-2357 | If some CPU node is nearer than 256, a first strictly-closest one exists. It is unique. None exists when no CPU node is near. |
| Topology.PmemTopology.ScanCpus | mm/migrate.c:2330-2339 | Every node's CPU entry is the last CPU on it, and the CPU-node flag is set exactly for nodes with a CPU. |
| Topology.PmemTopology.NearestCpu | mm/migrate.c:2342-2358 | A PMEM node's entry is the CPU of the first CPU node at strictly minimal distance below 256, or its previous entry when there is none. |
| Topology.PmemTopology.Init | mm/migrate.c:2311-2363 | The table is built only while uninitialised and the allocation succeeds. It is then left alone. When built, every node is paired with its nearest CPU. A table that was all zero before, or already built, stays in that form. |
| Topology.PmemTopology.NearestCpuNode | mm/migrate.c:2366-2371 | The lookup builds the table once and keeps it in the form the kernel can hold. It returns -1 for an out-of-range node or an unbuilt table. On every later call as well, a built table gives -1 for a non-PMEM node and, for a PMEM node, the CPU of its first closest CPU node (0 when no CPU node is nearer than 256). |
| MovePages.CheckFlags | mm/migrate.c:2764-2770 | -EINVAL exactly for an unknown bit, -EPERM exactly for MOVE_ALL without CAP_SYS_NICE, and 0 otherwise. |
| MovePages.MovePagesPathCases | mm/migrate.c:2764-2815 | The flag checks come first. The call proceeds exactly when every check passes: moving with nodes, querying without. |
| MovePages.AddPageCases | mm/migrate.c:2408-2471 | 0 exactly for a page already on the node. A bad VMA is -EFAULT. A multi-mapped page without MOVE_ALL is -EACCES. A base page is queued with result 1 or is -EBUSY. Any positive result is 1. |
| MovePages.Stored | mm/migrate.c:2289-2298 | Storing keeps the status array's length. |
| MovePages.StoreRcWritten | mm/migrate.c:2289-2298 | store_status is 0 exactly when every slot was written. Any failure is -EFAULT. |
| MovePages.StoreStatus | mm/migrate.c:2289-2298 | The array and result are those of the store specification. |
| MovePages.Flush | mm/migrate.c:2373-2397 | A flush empties the page list and leaves the status array alone. |
| MovePages.NodeCheck | mm/migrate.c:2514-2522 | -ENODEV exactly for a node out of range or without memory, and -EACCES exactly for a node outside the allowed set. |
| MovePages.FlushCarried | mm/migrate.c:2535-2555 | Flushing a list for one node keeps the walk invariant. |
| MovePages.StoreGroup | mm/migrate.c:2551-2555 | Storing the node for the group completes every status up to `i` and leaves later ones alone. |
| MovePages.SwitchToNew | mm/migrate.c:2524-2563 | A node change flushes, stores the group and opens a fresh one. |
| MovePages.SwitchWalking | mm/migrate.c:2524-2563 | A clean request's node switch keeps the walk open. |
| MovePages.QueuedByFor | mm/migrate.c:2575-2619 | A queued page belongs to its request's node. |
| MovePages.AddFailed | mm/migrate.c:2595-2619 | A failed add stores its error and keeps the walk invariant. |
| MovePages.FailedStep | mm/migrate.c:2595-2619 | A failed add stores the error, flushes, and closes the group. |
| MovePages.FailedWalking | mm/migrate.c:2595-2619 | After a failed add the walk invariant holds at the next request. |
| MovePages.FailedCarried | mm/migrate.c:2595-2619 | After a failed add the list is empty and the node is reset. |
| MovePages.FailedFinal | mm/migrate.c:2595-2619 | After a failed add, every status up to it is final. |
| MovePages.ClosedWalking | mm/migrate.c:2502-2627 | A closed group with an empty list satisfies the walk invariant. |
| MovePages.AddFound | mm/migrate.c:2584-2589 | A page already on the node gets the node as its status, and the walk continues. |
| MovePages.FoundStep | mm/migrate.c:2584-2589 | An already-resident page's status is the current node. |
| MovePages.FoundWalking | mm/migrate.c:2584-2589 | The walk invariant holds after an already-resident page. |
| MovePages.FoundGroup | mm/migrate.c:2584-2589 | An already-resident page stays in the node's group. |
| MovePages.FoundCarried | mm/migrate.c:2584-2589 | An already-resident page queues nothing. |
| MovePages.OpenWalking | mm/migrate.c:2502-2627 | An open group satisfies the walk invariant. |
| MovePages.AddQueued | mm/migrate.c:2575-2593 | A queued page joins the list for its node, and the walk continues. |
| MovePages.QueuedWalking | mm/migrate.c:2575-2593 | The walk invariant holds after a queued page. |
| MovePages.QueuedGroup | mm/migrate.c:2575-2593 | A queued page is added to the group's list. |
| MovePages.QueuedCarried | mm/migrate.c:2575-2593 | The queued pages so far are carried in the list and the batches. |
| MovePages.CleanStep | mm/migrate.c:2502-2627 | A clean request continues the walk and keeps its invariant. |
| MovePages.FinishWalking | mm/migrate.c:2628-2666 | Flushing at the end yields the earlier error, or 0, and every walked status final. |
| MovePages.RunStops | mm/migrate.c:2507-2522 | An unreadable request ends the walk with -EFAULT, and a bad node with its node error. |
| MovePages.RunContinues | mm/migrate.c:2502-2627 | A continuing step passes to the next request. |
| MovePages.RunSkip | mm/migrate.c:2502-2627 | A run of continuing steps composes. |
| MovePages.CleanWalk | mm/migrate.c:2502-2627 | A run of clean requests continues and keeps the walk invariant. |
| MovePages.RunWalking | mm/migrate.c:2502-2666 | A walk over clean requests that ends at the list's end or at a bad request returns 0 or that request's error. Each walked request then has its final status, later ones are untouched, and the queued pages are in the batches in order. |
| MovePages.WalkEnds | mm/migrate.c:2502-2666 | The walk's result at its stopping point is 0, -EFAULT or the node error. |
| MovePages.PagesMoveReports | mm/migrate.c:2477-2669 | When no status write faults and every batch migrates all its pages: do_pages_move returns 0 if every request is clean, meaning it is readable, names an allowed memory node and queued its page whenever add_page reported 1. Otherwise it returns the first bad request's -EFAULT, -ENODEV or -EACCES. Every walked request's status is its node (already there or migrated) or its own negative error, and later entries are untouched. Every queued page goes to exactly one batch, in request order, and only to a batch for its request's node. |
| MovePages.HugeHeadReturnsOne | mm/migrate.c:2628-2666 | A single request whose hugetlbfs head is reported as added but was not isolated makes do_pages_move return 1, write no status entry and hand over no batch. |
| MovePages.FailedBatchCounts | mm/migrate.c:2535-2549 | A batch with a positive failure count ends the walk. The result adds the requests not yet attempted, nr_pages - i - 1. |
| MovePages.SwitchBatchCounts | mm/migrate.c:2524-2563 | A node switch only appends batches. A positive count ends the walk with the unattempted requests added, and a continuing walk's batch succeeded. |
| MovePages.AddBatchCounts | mm/migrate.c:2595-2619 | A failed add's flush likewise adds the unattempted requests. |
| MovePages.MovePagesToNode | mm/migrate.c:2373-2397 | An empty list is 0 with no batch. Otherwise one batch for the node is recorded with its result, in MIGRATE_SYNC mode with the caller's MT and DMA bits, on the orchestrator MPOL_MF_MOVE_CONCUR picks, and the list is emptied. Batches already in the requested mode stay so. |
| MovePages.RunModes | mm/migrate.c:2477-2669 | The walk from any request keeps every batch it hands over in the mode the caller's flags ask for. |
| MovePages.BatchModes | mm/migrate.c:2373-2397 | For every input, every batch do_pages_move hands over runs in full MIGRATE_SYNC mode (no "no copy" bit), with MT and DMA set exactly as MPOL_MF_MOVE_MT and MPOL_MF_MOVE_DMA, and goes to migrate_pages_concur exactly when MPOL_MF_MOVE_CONCUR is set. |
| MovePages.SwitchStep | mm/migrate.c:2524-2563 | The node-switch code leaves the state of the switch specification. |
| MovePages.AddPageStep | mm/migrate.c:2575-2619 | The add code leaves the state of the add specification. |
| MovePages.MoveStep | mm/migrate.c:2502-2627 | One loop iteration leaves the state of the step specification. |
| MovePages.FlushRest | mm/migrate.c:2628-2663 | The out_flush code leaves the result and state of the finish specification. |
| MovePages.ResumeStep | mm/migrate.c:2502-2666 | Resuming after a step gives the walk's result. |
| MovePages.ResumeFinish | mm/migrate.c:2628-2666 | Resuming at the end gives the finish. |
| MovePages.WalkStep | mm/migrate.c:2502-2627 | One step of the loop preserves the remaining walk's result. |
| MovePages.DoPagesMove | mm/migrate.c:2477-2669 | The result, the status array and the batches are those of the walk specification. |
| MovePages.PageNodeAgrees | mm/migrate.c:2674-2707 | The queried node agrees with add_page: a page already on a node reports that node. A missing page reports the error add_page gives. |
| MovePages.PagesStatArray | mm/migrate.c:2674-2707 | Every queried entry holds its page's node or error. |
| MovePages.StoreChunk | mm/migrate.c:2731-2734 | One chunk's copy-out sets exactly its slots to their pages' nodes. |
| MovePages.DoPagesStat | mm/migrate.c:2713-2741 | Every entry whose chunk of 16 was copied in and out holds its page's node. The result is 0 exactly when every chunk was copied, and otherwise -EFAULT. |

## Left out

- Locks, `anon_vma` keep-alive handles, `put_page()` and reference drops beyond the mapping handoff are not modelled. The remapping of migration entries by `remove_migration_ptes()` is not modelled either. The rmap walk and PTE/PMD encoding are left out; only `page_was_mapped` is kept.
- Migration-entry waiting (`migration_entry_wait()` and friends) is left out: it is concurrency and timing.
- The bodies of the accelerated backends (`copy_page_multithread`, `copy_page_dma`, `copy_page_lists_mt`, `copy_page_lists_dma_always`) are not shown. Each is an input outcome, and a failure is modelled as `-EFAULT`. A failed bulk copy is assumed to write nothing to the destinations.
- The mode header defining the `MIGRATE_*` bits is not part of this model. The mode is a datatype with the sync level, the SYNC_NO_COPY bit and the MT and DMA bits. `MAX_ORDER` is taken as 11, so `MAX_ORDER_NR_PAGES` is 1024.
- Filesystem and driver `migratepage` callbacks, `writeout()` (whose `clear_page_dirty_for_io()` clears Dirty before `writepage`), `writepage`, `try_to_release_page()` and `isolate_page()` are opaque. Only their result codes are inputs; their effects on the frames are not modelled.
- Tail pages of transparent huge pages are not modelled. A THP is one head frame with 512 sub-pages of content. When `migrate_pages()` splits a THP on `-ENOMEM`, the model retries the head as a base page; the tail pages the split appends to the list are not added.
- `unmap_and_move_huge_page()`, `migrate_huge_page_move_mapping()`, hugetlb internals, `putback_movable_page()`, KSM, page_owner and memcg charging are left out. The hugetlb path's result code is an input.
- Device-private migration (`migrate_vma_*`) and the NUMA-balancing misplaced-page paths are left out.
- The `CONFIG_PAGE_MIGRATION_PROFILE` cycle counters, tracepoints, `cond_resched()`, `VM_BUG_ON` checks and the `PF_SWAPWRITE` flag save and restore are left out.
- The work-item array is a fresh Dafny array. Its page allocation and the order `list_move()` gives the unmapped list are not modelled. The batched stages walk the array downwards, which gives the same frames because the items' pages are disjoint.
- `list_del()` from the caller's list is modelled as filtering the list.
- `page_count()` of an old page at `move_mapping_concurr()` is an input (`refsAtMove`). So is `PageTransHuge()` of the stale `page` variable in the `-ENOMEM` case.
- `find_vma()`, `follow_page()`, `isolate_lru_page()` and `isolate_huge_page()` answers are inputs of `add_page_for_migration()`. The MPOL flags are booleans.
- The result of every batch handed to the orchestrators by `do_move_pages_to_node()` is an input. The isolated-page counters that `add_page_for_migration()` raises are not tracked in `do_pages_move()`.
- MovePages.PagesMoveReports: stated for walks in which no status write faults and every batch succeeds, and up to the first request that is not clean. A request is not clean when it cannot be read, names a node that is not valid or not allowed, or is a hugetlbfs head that `add_page_for_migration()` reports as 1 without isolating it; MovePages.HugeHeadReturnsOne shows the last case for a single request. A failing batch is covered by MovePages.FailedBatchCounts, SwitchBatchCounts and AddBatchCounts, and a faulting write by the step specification, not by an end-to-end lemma.
- MovePages.FailedBatchCounts: the `int` overflow of `err += nr_pages - i - 1` is not modelled.
- MovePages.DoPagesStat: `copy_to_user()` writing part of a chunk before faulting is not modelled; a chunk whose copy faults writes nothing.
- `put_user()`/`get_user()`/`copy_from_user()` faults are inputs. The task lookup, ptrace check, security hook and `get_task_mm()` are inputs (`Caller`). The compat syscall is left out.
- A failed `kmalloc` of the topology arrays is an input (`allocOk`). `node_distance()` is an input matrix, and the PMEM-node flags and CPU list are inputs.
- SerialBatch.MigratePages: each page's move on the serial path is its result code only, taken from an input environment for `unmap_and_move()`. Its effect on the frames is not modelled: `move_to_new_page()` handing the mapping over, the content copy and state carry-over, and the clearing of Active and Unevictable on a freed old page. The method therefore leaves the frames as they were, which the kernel's does not when a page migrates.
- ConcurBatch.MigratePagesConcur: for the same reason its serial fallback changes no frame. The frames after the call are those the batched stages made, and the pages the fallback migrates are not reflected in them. Nor do they reflect the concurrent pass clearing a page that was freed under it (see the next line).
- ConcurBatch.UnmapItem: a page found freed under the concurrent pass (`page_count() == 1`) is dequeued and counted, but its frame is left as it was. The kernel clears Active and Unevictable on it, and clears Isolated on a driver page its owner released; the model does not. ConcurBatch.Pass, ConcurBatch.RunStages and ConcurBatch.MigratePagesConcur therefore state those flags as they were before the call for such a page.
- `page_index()` of a swap-cache page, which is its swap offset, is modelled as the frame's `index`.
- MoveMapping.StoreSlots: the slots map is written once after the loop, so the intermediate xarray states are not observable.
