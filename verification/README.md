# Verified models of Xen toolstack algorithms

Models of seven state-heavy parts of a Xen tree with the A3 GPU device model, and proofs of what they
promise. Verify with `dafny verify dfyconfig.toml`.

- **vchan** (`Vchan*.dfy`): the shared-memory byte ring between two domains as a transition system. Its
  steps are the atomic actions of the two endpoints on the indices, the ring, the notify bits and the
  event channel. `VchanRing` is the copying code itself on an array, `VchanPolling` the way applications wait.
- **Mini-OS page allocator** (`Bitmap`, `Buddy`, `FreeLists`, `PageAllocator`): the word-packed bitmap,
  the doubly linked free lists inside the free pages, and the buddy loops.
- **Checkpoint compression** (`PageCodec`, `PageCompressor`, `LruList`, `DeltaCache`, `CacheHistory`,
  `DeltaBatches`, `DeltaExact`, `DeltaSpace`, `Transmission`, `Compression`, `Checkpoint`): the page delta
  codec, the cache of pages in least-recently-used order, the agreement between that cache and the receiver over batches and
  sessions, and what happens to it when output buffers run full.
- **kexec** (`Kexec`): the in-place rearrangement of frames before a new kernel is started.
- **Boot page tables** (`PageTableSize`, `PageTables`, `PageTablesPae`): how many tables are needed, and
  what they map.
- **A3** (`Bar3`, `CreditScheduler`): the BAR3 software page table with its batches, and the credit
  scheduler with its threads.
- **Mini-OS grants and threads** (`GrantTable`, `RunQueue`).

`Pow2` and `Sequences` hold what they share. Concurrent code is a transition system over the points at which
another thread or domain may come in, and its results hold in every reachable state or over every run.
Code that updates objects is a class whose methods are proved against functions of the abstract state.

## Where the code does not do what one would expect

Each of these is kept as it is in the source, with a failing input and the exact condition.

- A blocking vchan `read` of zero bytes can sleep on data that is there
  (`VchanTheorems.EmptyReadStranded`, `VchanTheorems.StrandedOnlyByEmptyRead`).
- The Mini-OS allocation bitmap is too small when the page count is less than 8 past a multiple of 32768
  (`PageAllocator.BitmapReach`).
- Raw pages are dropped from the delta cache when they are queued, not when they are sent, so a batch with
  a raw page behind a page of the same number that is not raw leaves cache and receiver different
  (`DeltaExact.SafeExactlyInOrder`).
- A page that is refused for lack of space has already taken its cache slot, so the retry may be compared
  with whatever that slot held (`DeltaExact.RefusalExact`, `DeltaExact.RefusalAlways`). The receiver then gets
  the page if and only if it has every word the page shares with the slot: `Transmission.RefusedPageArrivesWrong`
  is a batch that fails for any buffer size, `Transmission.RightExactly` the exact condition, and
  `Transmission.CachedIsEnough` and `Transmission.SpaceIsEnough` are two simple tests that exclude the case.
- The range test of `xc_compression_add_page` admits the size itself, which has no entry in the table
  (`Compression.Context.AddPage`).
- The PAE page table builder lets go of an L2 table at the first page of its last 2MB
  (`PageTablesPae.RightExactly`).

kexec never hands out a page it has exchanged, because the allocator does not have it.
`Kexec.PermutesExactlyWhenClean` says that it depends on this and on nothing else, and
`Kexec.ReservedGrantLosesFrame` what would happen otherwise.

## Model

| member | source | states |
|---|---|---|
| VchanTheorems.StreamSafety | tools/libvchan/io.c:117-269 | in every reachable state of every interleaving, index wrap at 2^32 included, the indices differ by the number of unread bytes, the ring can hold them, what was consumed is a prefix of what was published, and every unread byte is still in its slot |
| VchanTheorems.NeverOverwritesUnread | tools/libvchan/io.c:180-198 | the slot the writer fills next never holds an unread byte |
| VchanTheorems.CallResults | tools/libvchan/io.c:203-307 | a send or write that returns has published exactly the bytes it reports, and a recv or read returns exactly the next published bytes |
| VchanTheorems.NoLostWakeup | tools/libvchan/io.c:95-130 | an endpoint asleep while its peer is not in the middle of notifying is rightly asleep: its notify bit is set and what it asked for is not there, for every call but a read of zero bytes |
| VchanTheorems.SleepingWriter | tools/libvchan/io.c:144-157 | a sleeping writer has its bit set and the ring really lacks the room it asked for |
| VchanTheorems.SleepingReader | tools/libvchan/io.c:117-130 | a sleeping reader has its bit set and the ring really lacks the data it asked for, unless it asked for nothing |
| VchanTheorems.EmptyReadStranded | tools/libvchan/io.c:292-307 | a reachable run in which a read of zero bytes sleeps on data that is there, its bit clear and no event on its way |
| VchanTheorems.StrandedOnlyByEmptyRead | tools/libvchan/io.c:292-307 | the exact condition: a call that moves data can never be stranded if and only if it is not a read of zero bytes |
| VchanPolling.WaitsRightly | tools/libvchan/io.c:132-166 | for an application that waits itself: after data_ready or buffer_space returned an amount, a wait with no event latched and a peer not about to notify has its bit set and the amount is still what was told |
| VchanPolling.PeerKeeps | tools/libvchan/io.c:95-307 | no step of the peer loses such a request or changes the amount behind the bit |
| VchanTheorems.NeverBothAsleep | tools/libvchan/io.c:168-178 | the writer and the reader of one ring never sleep at the same time when what they ask for fits into the ring together |
| VchanInvariant.StepKeeps | tools/libvchan/io.c:95-307 | every atomic step of either endpoint keeps the invariant that the theorems rest on |
| VchanInvariant.WriterStepKeeps | tools/libvchan/io.c:180-249 | each step of send and write keeps it: look at the space, ask, look again, copy, publish, clear the bit, post, sleep, wake |
| VchanInvariant.ReaderStepKeeps | tools/libvchan/io.c:251-307 | each step of recv and read keeps it |
| VchanInvariant.SeenIsTrue | tools/libvchan/io.c:117-157 | the unsigned difference of two wrapped 32-bit indices is the true number of bytes ready or free |
| VchanInvariant.SlotIsPosition | tools/libvchan/io.c:182-192 | the masked index of a byte of either copy is its stream position modulo the ring size |
| VchanInvariant.FillByte | tools/libvchan/io.c:185-192 | copying a byte into its slot keeps every unread byte |
| VchanInvariant.PublishChunk | tools/libvchan/io.c:193-197 | advancing the producer index publishes exactly the copied bytes |
| VchanInvariant.ConsumeChunk | tools/libvchan/io.c:257-268 | advancing the consumer index frees exactly the bytes that were copied out |
| VchanRing.SharedRing.DoSend | tools/libvchan/io.c:180-198 | the two copies and the index update append the data to the stream and nothing else |
| VchanRing.SharedRing.DoRecv | tools/libvchan/io.c:251-269 | the two copies and the index update take the next bytes of the stream |
| Bitmap.MapAlloc | extras/mini-os/mm.c:72-91 | the word masks set exactly the bits of the range and change no other |
| Bitmap.MapFree | extras/mini-os/mm.c:94-113 | the word masks clear exactly the bits of the range and change no other |
| Buddy.CanonicalUnique | extras/mini-os/mm.c:322-360 | two sets of free chunks without free buddy pairs that cover the same pages are the same set |
| Buddy.RunIffChunk | extras/mini-os/mm.c:265-276 | an aligned run of free pages exists if and only if some free chunk is at least as large |
| Buddy.BuddyPageIsHead | extras/mini-os/mm.c:331-346 | when the first page of the buddy of a freed block is free, that page is the head of a free chunk, so its level field may be read |
| Buddy.TakeBuddy | extras/mini-os/mm.c:347-352 | taking the buddy off its list and joining it keeps chunks aligned, disjoint and free of buddy pairs |
| FreeLists.PushKeeps | extras/mini-os/mm.c:245-250 | linking a chunk in at the head keeps every level an exact doubly linked list |
| FreeLists.UnlinkKeeps | extras/mini-os/mm.c:347-349 | the two stores that unlink a chunk, wherever it is, keep every level an exact doubly linked list |
| FreeLists.OwnersMayScribble | extras/mini-os/mm.c:124-135 | whatever the owner of an allocated page writes into it leaves all free lists intact |
| PageAllocator.BitmapReach | extras/mini-os/mm.c:217-218 | the bitmap of the computed size reaches the last page number that is touched if and only if max is at least 8 past a multiple of 32768; one guard word more always does |
| PageAllocator.ChunkLevel | extras/mini-os/mm.c:234-240 | the largest level at which the next chunk is aligned and fits |
| PageAllocator.Allocator.constructor | extras/mini-os/mm.c:200-253 | init_page_allocator: all pages of the range free, in aligned disjoint chunks of which no two are free buddies |
| PageAllocator.Allocator.FindLevel | extras/mini-os/mm.c:265-276 | the smallest level from the order on with a free chunk, or none |
| PageAllocator.Allocator.Split | extras/mini-os/mm.c:278-290 | halving a chunk returns the upper half to the lists and keeps the free pages |
| PageAllocator.Allocator.AllocPages | extras/mini-os/mm.c:258-301 | alloc_pages fails if and only if no aligned run of that many free pages exists; otherwise it returns one, disjoint from every live allocation, and takes exactly its pages |
| PageAllocator.Allocator.TryMerge | extras/mini-os/mm.c:329-352 | one merging round: joins the buddy exactly when it is wholly free |
| PageAllocator.Allocator.FreePages | extras/mini-os/mm.c:308-362 | free_pages gives back exactly the pages of the allocation and keeps bitmap, lists and live allocations consistent |
| PageAllocator.Allocator.OwnerWrites | extras/mini-os/mm.c:258-301 | the allocator stays consistent when owners overwrite the header fields in their pages |
| PageAllocator.AllFreedIsInitial | extras/mini-os/mm.c:200-362 | whatever the history of allocations, freeing everything restores the initial set of chunks |
| PageAllocator.AllocThenFree | extras/mini-os/mm.c:258-362 | an allocation followed by its release leaves the same chunks as before |
| PageCodec.DecodeOver | tools/libxc/xc_compression.c:365-454 | decoding a delta over any page the receiver holds consumes exactly the emitted bytes and gives, word by word, the new page where it differs from the old one and the held page elsewhere |
| PageCodec.OverlayIsNew | tools/libxc/xc_compression.c:365-454 | so the receiver gets the new page if and only if it already has every word that the delta leaves out |
| PageCodec.RoundTrip | tools/libxc/xc_compression.c:135-454 | decoding an encoded delta over the old page gives the new page, consumes exactly the emitted bytes and ignores what surrounds them |
| PageCodec.RoundTripFull | tools/libxc/xc_compression.c:119-133 | the same for a page sent in full, whatever the receiver held |
| PageCodec.MarkersDistinct | tools/libxc/xc_compression.c:104-110 | a delta is never taken for a full page, and for an empty one only when nothing changed |
| PageCodec.WorstCase | tools/libxc/xc_compression.c:86-102 | for every pair of pages the delta takes at most 4096 + 9 bytes |
| PageCodec.EncodedSize | tools/libxc/xc_compression.c:153-193 | the bound behind it, from any word on: short runs cost a header more, but a skipped run next to them pays for it |
| PageCompressor.FlushRun | tools/libxc/xc_compression.c:164-189 | writing out a run emits its header and data, brings the cache page up to date and counts skipped bytes |
| PageCompressor.CompressWords | tools/libxc/xc_compression.c:153-193 | the loop, updating the cache page while it compares against it, emits the specified encoding and leaves the cache page equal to the new page |
| PageCompressor.CompressPage | tools/libxc/xc_compression.c:135-206 | compress_page: refused for lack of space with nothing changed, or the exact encoding, within the space, and the cached page replaced |
| PageCompressor.UncompressPage | tools/libxc/xc_compression.c:365-454 | the decoding loop succeeds exactly when the specification does and then returns its position and page |
| LruList.UnlinkMiddle | tools/libxc/xc_compression.c:237-241 | unlinking a slot from the middle leaves an exact doubly linked list of the others |
| LruList.UnlinkTail | tools/libxc/xc_compression.c:231-236 | the same at the tail |
| LruList.UnlinkHead | tools/libxc/xc_compression.c:267-270 | the same at the head |
| LruList.PushFront | tools/libxc/xc_compression.c:243-247 | linking a slot in at the head keeps the list exact |
| LruList.PushBack | tools/libxc/xc_compression.c:277-280 | linking a slot in at the tail keeps the list exact |
| LruList.HitIsIndexed | tools/libxc/xc_compression.c:214-216 | pfn2cache leads to the slot of a cached page and to nothing for any other |
| LruList.FrontIsPlace | tools/libxc/xc_compression.c:229-248 | moving the slot of a cached page to the front is a use of the page in the most-recently-used list |
| LruList.TailIsPlace | tools/libxc/xc_compression.c:216-227 | taking the tail for a new page fills a free slot while there is one and otherwise drops the last page of that list |
| LruList.TailIsStale | tools/libxc/xc_compression.c:216-227 | the slot a new page takes holds what the last free slot still held or, when all are taken, the page that makes room |
| LruList.BackIsWithout | tools/libxc/xc_compression.c:262-284 | invalidation drops just that page and makes its slot the next to be used |
| CacheHistory.CacheIsMostRecent | tools/libxc/xc_compression.c:208-285 | after any history of lookups and invalidations every cached page holds what it was last used with and was not dropped since, the list is in order of last use, and every other page that was not dropped since its last use was used before all that are cached |
| CacheHistory.EvictsLeastRecent | tools/libxc/xc_compression.c:216-227 | after any such history, a new page in a full cache displaces exactly the page whose last use is longest ago; in every other case no page leaves but an invalidated one |
| CacheHistory.CachedExactly | tools/libxc/xc_compression.c:208-285 | the exact condition for a page to be cached: it was used, not invalidated since, and at no time since its last use were there as many live pages used later as there are slots |
| CacheHistory.RecentExact | tools/libxc/xc_compression.c:208-285 | the list of recent pages that these are measured by is exactly the live pages in order of last use |
| CacheHistory.LastUseIsLast | tools/libxc/xc_compression.c:208-253 | the last use of a page is what its name says: no later event uses it |
| CacheHistory.FullUnlessDropped | tools/libxc/xc_compression.c:208-253 | without invalidations the cache is the front part of that list, as long as there are slots |
| DeltaSpace.ContextHasHistory | tools/libxc/xc_compression.c:208-357 | whatever a context queues, writes and refuses, its cache is that of such a history |
| Compression.Context.constructor | tools/libxc/xc_compression.c:473-544 | an empty cache whose slots form one list, and an empty queue |
| Compression.Context.GetCachePage | tools/libxc/xc_compression.c:208-253 | get_cache_page refines one use in the most-recently-used list, says whether the page was cached and hands out its slot |
| Compression.Context.InvalidateCachePage | tools/libxc/xc_compression.c:254-285 | invalidate_cache_page refines the removal of one page |
| Compression.Context.AddPage | tools/libxc/xc_compression.c:287-310 | a number beyond the table is refused with nothing changed; one that passes has an entry in pfn2cache if and only if it is not the size itself; then the page is queued, and a raw one leaves the cache at once, its slot being the next to be taken |
| Compression.Context.AddFullPage | tools/libxc/xc_compression.c:119-133 | refused with nothing changed, or the page behind its marker and copied into its slot |
| Compression.Context.AddDelta | tools/libxc/xc_compression.c:135-206 | refused with nothing changed, or the delta against the slot, which then holds the page |
| Compression.Context.SendPage | tools/libxc/xc_compression.c:330-341 | one queued page: accepted if and only if its worst case fits the rest of the buffer; then its message is appended and the slots are those of a written page, otherwise they are those of a refused one, its slot taken and stale |
| Compression.Context.CompressPages | tools/libxc/xc_compression.c:312-357 | one call does exactly what the specification of a call does: bytes, number of pages accepted, cache and free slots; 0, 1 and -1 mean nothing to do, all sent, and a page that did not fit |
| DeltaSpace.CallIsLongest | tools/libxc/xc_compression.c:325-349 | one call writes the stream of the longest part of the queue of which every page finds its space, stays within the buffer, and stops only at a page that does not fit |
| DeltaSpace.CallMoves | tools/libxc/xc_compression.c:325-349 | a buffer with room for one worst case always takes a page, so the loop over buffers ends |
| DeltaSpace.BalkedThenTook | tools/libxc/xc_compression.c:343-348 | once a refused page is written, cache and free slots are as if it had never been refused |
| DeltaCache.MessageDelivers | tools/libxc/xc_compression.c:119-206 | while cache and receiver agree, one message gives the receiver the queued page |
| DeltaCache.StepCoherent | tools/libxc/xc_compression.c:208-253 | and they agree afterwards, if a raw page was not cached |
| DeltaCache.IncoherentDiverges | tools/libxc/xc_compression.c:195-202 | a cached page that differs from the receiver's leads to a wrong page: queueing it next sends nothing |
| DeltaBatches.BatchArrives | tools/libxc/xc_compression.c:312-454 | the receiver, knowing only the page numbers, takes the whole stream of a batch in order, stops at its end and holds the memory the batch describes |
| DeltaBatches.BatchAgrees | tools/libxc/xc_compression.c:287-357 | after a batch in order every cached page is the receiver's |
| DeltaBatches.QueuedClears | tools/libxc/xc_compression.c:297-299 | once a batch is queued none of its raw pages is cached |
| DeltaBatches.QueuedKeeps | tools/libxc/xc_compression.c:297-299 | queueing only drops cached pages |
| DeltaExact.SafeExactlyInOrder | tools/libxc/xc_compression.c:287-357 | the exact condition on numbers and kinds alone: a batch is delivered and keeps the agreement for all contents if and only if no raw page comes behind a page of the same number that is not raw |
| DeltaExact.OutOfOrderFails | tools/libxc/xc_compression.c:297-299 | for every batch out of order, concrete pages for which receiver and cache end up different, even from an empty cache |
| DeltaExact.RefusalExact | tools/libxc/xc_compression.c:221-227 | when a page is refused for lack of space, cache and receiver still agree if and only if it was raw, was cached, or its stale slot happens to hold the receiver's page |
| DeltaExact.RefusalAlways | tools/libxc/xc_compression.c:343-348 | so it is safe for every content of the reused slot if and only if the page was raw or cached |
| DeltaExact.SessionInOrder | tools/libxc/xc_compression.c:287-454 | over whole sessions of batches in order, every batch is delivered, the cache carrying over |
| DeltaExact.WrittenIsLast | tools/libxc/xc_compression.c:365-454 | the delivered memory holds for each page the last one queued for it, and is otherwise unchanged |
| Transmission.TransmitCall | tools/libxc/xc_domain_save.c:229-266 | one call writes the first part of the transmission and the next one goes on behind it, wherever the buffers end |
| Transmission.TransmitArrives | tools/libxc/xc_compression.c:312-454 | whatever was refused on the way, the receiver decodes every page of the batch and stops at its end, with the memory that the specification calls delivered |
| Transmission.ResultExact | tools/libxc/xc_compression.c:343-454 | while cache and receiver agree, a page arrives as queued unless it was refused without being cached, and then if and only if the words it shares with its stale slot are the receiver's |
| Transmission.RightIfRetriesAre | tools/libxc/xc_compression.c:312-454 | a batch in order, pages repeated or not, arrives as queued if every such retry is right |
| Transmission.RightExactly | tools/libxc/xc_domain_save.c:1153-1156 | a batch in which no page number repeats, as in one pass of the saver, arrives as queued if and only if every such retry is right |
| Transmission.SessionRightExactly | tools/libxc/xc_domain_save.c:1119-1156 | over whole sessions, cache and stale slots carrying over: every batch arrives as queued if and only if every retry of every batch is right |
| Transmission.NothingLost | tools/libxc/xc_compression.c:343-348 | if no page is refused that is not cached, every retry is right |
| Transmission.PiecesMakeStream | tools/libxc/xc_compression.c:343-348 | and then the pieces make up the stream of the batch, however it was cut |
| Transmission.RefusalInvisible | tools/libxc/xc_compression.c:343-348 | because refusing a raw or cached page changes nothing that will be sent |
| Transmission.CachedIsEnough | tools/libxc/xc_compression.c:208-253 | nothing is lost if every page of the batch that is not raw is cached once it is queued |
| Transmission.SpaceIsEnough | tools/libxc/xc_compression.c:135-151 | nor if the first buffer has room for the worst case of every page |
| Transmission.RefusedPageArrivesWrong | tools/libxc/xc_domain_save.c:65 | for every buffer size and every number of slots, a batch of one uncached page more than fits, from a full cache that agrees with the receiver, whose last page arrives blank |
| Checkpoint.WriteCompressed | tools/libxc/xc_domain_save.c:221-268 | the loop over output buffers ends with the queue empty; what it wrote is exactly the transmission of the batch, refusals included, and cache and free slots are those of the whole batch |
| Checkpoint.QueueBatch | tools/libxc/xc_domain_save.c:1395-1465 | queueing the pages of a batch one by one leaves the cache and the free slots that the specification gives |
| Checkpoint.SendBatch | tools/libxc/xc_domain_save.c:1395-1465 | end to end, for every batch and all buffers: the receiver decodes all of it and the slots are left as specified; from an agreeing cache a batch in order leaves a cache that agrees with what was queued, and arrives as queued whenever the retries are right, and if no page number repeats only then |
| Checkpoint.SendSession | tools/libxc/xc_domain_save.c:1119-1156 | the methods of the context over a whole session of batches: the receiver follows every batch if and only if every retry of every batch is right |
| Checkpoint.Outcome | tools/libxc/xc_compression.c:287-454 | the same as a statement about the transmission alone |
| Kexec.Home | stubdom/grub/kexec.c:97-103 | the moved-to chain from any page climbs strictly and ends behind the allocated part |
| Kexec.Builder.FindHome | stubdom/grub/kexec.c:97-103 | the loop ends at the end of the chain |
| Kexec.RoundKeepsTracks | stubdom/grub/kexec.c:84-113 | a round keeps the table a permutation in which every page not handed out is found by its chain |
| Kexec.RoundKeepsPlaced | stubdom/grub/kexec.c:84-113 | before any exchange, slot j holds the frame of the j-th page handed out |
| Kexec.ExchangeKeepsTracks | stubdom/grub/kexec.c:58-75 | an exchange with a reserved frame keeps it too |
| Kexec.RunPermutes | stubdom/grub/kexec.c:58-118 | over every run of allocations and exchanges the table stays a permutation of the original frames |
| Kexec.GrantExact | stubdom/grub/kexec.c:84-113 | handing out a page keeps the permutation if and only if the chain from that page still ends at its frame |
| Kexec.CleanPermutes | stubdom/grub/kexec.c:58-118 | in runs that may hand out and exchange any page, the table stays a permutation as long as no page is handed out after it was exchanged |
| Kexec.PermutesExactlyWhenClean | stubdom/grub/kexec.c:58-118 | the exact condition on the actions of a run, no page being exchanged and no slot filled twice: the table is a permutation throughout if and only if no page is handed out after it was exchanged |
| Kexec.ReservedGrantLosesFrame | stubdom/grub/kexec.c:211-223 | a run of three pages in which one is handed out after it was exchanged and a frame is lost |
| Kexec.Builder.Allocate | stubdom/grub/kexec.c:77-118 | kexec_allocate hands out the given pages, keeps the permutation and touches no earlier slot |
| Kexec.Builder.Exchange | stubdom/grub/kexec.c:58-75 | do_exchange puts the wanted frame at the target and moves only the two slots |
| Kexec.Builder.PlaceReserved | stubdom/grub/kexec.c:211-223 | console, xenstore and boot frames end up in their slots |
| Kexec.UpdateInverts | stubdom/grub/kexec.c:291-302 | applying only the changed entries makes the machine-to-physical table the exact inverse of the new table |
| Kexec.CountUpdates | stubdom/grub/kexec.c:291-294 | the number of entries that will be written |
| Kexec.CollectUpdates | stubdom/grub/kexec.c:295-302 | the entries written are exactly the changed ones, as many as were counted |
| PageTableSize.NrCountsBlocks | tools/libxc/xc_dom_x86.c:50-78 | nr_page_tables counts exactly the aligned blocks that the range touches |
| PageTableSize.TablesMonotone | tools/libxc/xc_dom_x86.c:80-115 | more range never needs fewer tables, across the point where PAE drops its extra table too |
| PageTableSize.CountPgtables | tools/libxc/xc_dom_x86.c:80-115 | the sizing loop terminates; the range it finds holds the tables it needs, the boot stack, the extra pages and the padding, and is the least on the 4MB grid that does so with a byte to spare |
| PageTables.AllocSegment | tools/libxc/xc_dom_core.c:407-462 | a segment is page aligned, behind everything allocated, large enough by less than a page, and within the memory of the domain |
| PageTables.SetupPgtables32 | tools/libxc/xc_dom_x86.c:137-172 | the filling loop leaves exactly the specified entry in every cell of every table |
| PageTables.WalkIsP2m | tools/libxc/xc_dom_x86.c:137-172 | walking any page of the range finds the frame of that page, read-only exactly for page tables; every other page of the address space faults |
| PageTables.BuildTables32 | tools/libxc/xc_dom_core.c:803-812 | counting, allocating and filling together: fails exactly on an unaligned start, and otherwise the walk holds and the segment and everything reserved lies in the range |
| PageTablesPae.SetupPgtablesPae | tools/libxc/xc_dom_x86.c:236-308 | the PAE loop leaves exactly the specified entry in every cell, including where it lets go of an L2 table too early |
| PageTablesPae.UsedL2Step | tools/libxc/xc_dom_x86.c:264-273 | it takes L2 tables only from those that were counted, on every image that PreparePae builds |
| PageTablesPae.PreparePae | tools/libxc/xc_dom_x86.c:80-115 | counting and allocating for a PAE guest: the counts of L2 and L1 tables are those the loop needs, and the segment and everything reserved lie in the range |
| PageTablesPae.WrongBeyond | tools/libxc/xc_dom_x86.c:280-289 | in every range that crosses the end of a gigabyte the second page is mapped wrong |
| PageTablesPae.RightExactly | tools/libxc/xc_dom_x86.c:236-308 | the exact condition: every page of the range is mapped to its frame with the right permission if and only if no gigabyte ends within the range behind its second page or later |
| PageTablesPae.BuildTablesPae | tools/libxc/xc_dom_core.c:803-812 | counting, allocating and filling for a PAE guest together: fails exactly on an unaligned start, and otherwise every page of the range is mapped right if and only if the range crosses no gigabyte |
| PageTablesPae.CrossingExample | tools/libxc/xc_dom_x86.c:280-289 | a domain of 8MB starting 4MB below the top gigabyte is such a range |
| Bar3.HostConfined | tools/a3/context.cc:317-331 | a video memory entry stays present exactly if it lies in the guest's part, and then leads to the same offset of that part |
| Bar3.ResolveIsWalk | tools/a3/device_bar3.cc:164-202 | resolving an offset of the arena equals a small-page-first walk of the guest's own tables, each entry rewritten |
| Bar3.OthersUnchanged | tools/a3/device_bar3.cc:290-337 | no other guest's answers change |
| Bar3.Device.RefreshTable | tools/a3/device_bar3.cc:290-337 | both of these after refresh_table with a directory, and nothing changes without one |
| Bar3.Device.PvReflect | tools/a3/device_bar3.cc:204-229 | one reflected entry: software entry, GPU entry, kept address and mapped page |
| Bar3.HoldBack | tools/a3/device_bar3.cc:231-288 | holding a page back in a run amounts to mapping or unmapping it at once |
| Bar3.Device.PvReflectBatch | tools/a3/device_bar3.cc:231-288 | despite coalescing, a batch leaves the same state as its entries reflected one by one |
| Bar3.BatchMeaning | tools/a3/device_bar3.cc:231-288 | after a batch its pages, and only they, have their entries, and Xen maps exactly those that are backed and not guarded |
| CreditScheduler.QueueConservation | tools/a3/credit_scheduler.cc:69-75 | in every interleaving the queued commands are those counted, those about to be counted and the one being taken, and the count is never negative |
| CreditScheduler.SelectionFinds | tools/a3/credit_scheduler.cc:106-128 | a search that the count allows never comes up empty, although commands arrive during it, and the command is still there when it is fetched |
| CreditScheduler.FifoExactlyOnce | tools/a3/credit_scheduler.cc:130-150 | what was sent to the GPU for a context is a prefix of what arrived for it, the rest being on its way or queued in order |
| CreditScheduler.BooksBalance | tools/a3/credit_scheduler.cc:78-103 | while nobody holds the fire mutex, the bandwidth equals the sum of what the contexts used |
| CreditScheduler.CreditIsShared | tools/a3/credit_scheduler.cc:82-95 | in every reachable state inside a replenishment the contexts together get no more than the time used and idled away, and the budget of every context of the list it has passed is at the default or within twice the credit |
| CreditScheduler.ScanPasses | tools/a3/credit_scheduler.cc:121-125 | over every run, each context a scan has passed was found without a command when the scan came to it |
| CreditScheduler.DebtorGoesLast | tools/a3/credit_scheduler.cc:112-125 | over every run, a scan that begins with the last served context in debt selects it again only if it found every other context without a command when it came to it |
| CreditScheduler.SleepsOnlyWhenIdle | tools/a3/credit_scheduler.cc:152-171 | the dispatcher sleeps only while every queued command has a thread that is about to wake it |
| CreditScheduler.NeverStuck | tools/a3/credit_scheduler.cc:78-171 | the mutexes never deadlock: unless everything is idle some thread can go on |
| CreditScheduler.InvKept | tools/a3/context_sched.cc:29-82 | every step of every thread keeps the invariant behind these |
| GrantTable.FreeList.Put | extras/mini-os/gnttab.c:40-53 | put_free_entry puts the reference at the front of the chain |
| GrantTable.FreeList.Get | extras/mini-os/gnttab.c:55-71 | get_free_entry takes the front of the chain, a proper reference |
| GrantTable.FreeList.constructor | extras/mini-os/gnttab.c:186-187 | after initialisation the chain holds every reference that is not reserved |
| GrantTable.FreeListExact | extras/mini-os/gnttab.c:40-71 | in every run the list is an acyclic chain of exactly the unused references, as long as the settled semaphore count; a thread past the semaphore always gets one |
| GrantTable.EndIsSafe | extras/mini-os/gnttab.c:102-120 | a grant is ended only at an instant at which the remote domain neither reads nor writes, and it can do neither until it is granted again |
| RunQueue.Scheduler.Schedule | extras/mini-os/sched.c:91-121 | one pass takes the first thread that can run, wakes it if its sleep is over and puts it last; otherwise it returns when the next sleeper is due, at most ten seconds away |
| RunQueue.WaitingAdvances | extras/mini-os/sched.c:103-117 | a waiting thread moves forward at each selection and never back, whatever else happens |
| RunQueue.BoundedWaiting | extras/mini-os/sched.c:76-128 | in every run a thread at position k that stays ready is taken by one of the next k + 1 selections |

## Left out

- vchan: close and reconnect, the choice of ring order, and failing event channel calls; both endpoints are
  open throughout and an event is latched.
- VchanTheorems.NeverBothAsleep: assumes that what the two calls ask for fits into the ring together, because two larger requests can wait for each other by design.
- PageAllocator.Allocator.constructor: the model's bitmap has one guard word more than the source's size gives; `PageAllocator.BitmapReach` says exactly when the source's own size is enough.
- PageAllocator: the tail word of a free chunk, which the source writes and never reads, and the virtual
  base of the pool, which is taken to be aligned so that page numbers stand for addresses.
- Compression.Context.AddPage: for a number equal to the table size, what the source does with the entry one past the end is not part of this model, which stops there.
- Compression: the output buffer is the sequence of bytes written, the copies of a run are single
  assignments, and allocation failures are not modelled.
- DeltaExact.SafeExactlyInOrder: batches of at most as many pages as the cache has slots, which the source ensures because both hold 8192 pages.
- Checkpoint.SendBatch: the space of each output buffer is an argument with room for at least one worst case, as the source ensures by flushing below two pages; headers and the flush itself are not part of this model.
- Transmission.RightIfRetriesAre: one direction only for batches that repeat a page number, because a later copy of a page can repair a wrong one; the saver never queues such a batch.
- Kexec: the pages that alloc_page returns are an argument; loading, hypercalls and the jump to the new
  kernel are not part of this model.
- PageTables: counting and filling the page tables of x86_64 guests, and addresses that wrap in 64 bits. That
  builder repeats the PAE scheme one level higher; where it lets go of a table too early it goes on with tables
  of the next level.
- PageTables.BuildTables32: assumes that the domain fits below 4GB and has memory for its range; the source does not check either.
- PageTablesPae.BuildTablesPae: assumes, like `PageTables.BuildTables32`, that the domain fits below 4GB and has memory for its range.
- PageTablesPae.SetupPgtablesPae: starts with the L3 table in place, since moving it below 4GB is a hypercall, and assumes that the range ends below 4GB, where the hypervisor lives.
- Bar3: the barrier lookup, the gfn-to-mfn translation and guest memory are arguments; offsets beyond a guest's
  arena, `shadow`, `reset_barrier` and register access are not part of this model.
- CreditScheduler: the set of contexts is fixed, times are arbitrary non-negative numbers, and the sampler
  is left out.
- GrantTable: transfer grants; only the thread that holds a grant ends it.
- RunQueue: stacks, context switches and the release of exited threads.
- Other parts of the tree (hypercall wrappers, ELF loading, decompressors, device front ends, consoles) are
  not part of this model.
