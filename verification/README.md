# Harbor kernel: a verified model

A Dafny model of the parts of the harbor kernel whose correctness spans many functions or whole
runs, with proofs of what they promise.

- **Address spaces** (`PageTables`, `FrameBooks`, `FramePlan`, `TableClone`, `TableMap`, `SpaceView`,
  `AddressSpace`, `SpaceForecast`, `SpaceLife`, `SpaceAddresses`). Physical memory is a map from frame
  to 512 descriptors or a page of bytes. The deep clone, the page walk, the window, the mapped regions,
  the text writer and the teardown are methods that change that memory in place. A walk of a root is
  the function `Lookup`, and what a space translates is compared with what the kernel's root
  translates, page by page. What an operation takes from the frame pool and how it ends is worked out
  from the state before it (`FramePlan`), and the methods are proved to end exactly that way.
- **ASIDs** (`Asid`, `TlbProtocol`). The bitmap pool against the set of free tags, and a step system
  over any number of CPUs with a TLB that fills and evicts on its own.
- **Durable store** (`Bytes`, `Crc`, `CrcDivision`, `CrcCheck`, `DurableMedia`, `SlotProtocol`, `SdStore`, `Sdhci`,
  `DurableFormat`, `DurableStore`, `BlobWire`, `BlobServer`, `Witness`). From the CRC register
  (section 3.2.9 of IEEE Std 802.3) through the two-slot media, the region format, put and get, the
  wire protocol and the boot counter. A flush may stop after any sector write, with the next sector
  left in any state.
- **Spinlocks** (`SpinLocks`, `LockOrder`). CPUs, the IRQ mask, lock bits, interrupts and task switches
  as one step system over every interleaving, and which lock nestings can deadlock it.
- **Capability slots** (`CapSlots`), **split virtqueue** (`Virtio`, section 2.7 of VIRTIO 1.2),
  **agent store format** (`AgentStore`, `AgentBytes`).

Methods carry the loops and the in-place updates. Each is tied to a function or a predicate on values,
and the properties are lemmas about those. I/O is a parameter: sector writes draw on a supply that may
run out, and the UTF-8 rule of the agent store is any predicate. Frame addresses are numbers, and the
translation index of an address is a function the machine is given, of which `PageOfVa` is the
kernel's. Release arithmetic wraps, as the release profile does.

## Where a promise stops

The code is modelled as it is. These are places where a property one would expect fails, each with a
concrete failing case or an exact condition.

- Two commits from one load aim at the same slot, so the second can lose the first
  (`SdStore.SecondFlushFromOneLoadLoses`); a flush survives every cut exactly when it aims opposite
  the good slot (`SdStore.SafeIffOpposite`).
- At sequence number 2^64 - 1 the next commit wraps to zero and never wins (`SdStore.FlushStep`). The
  boot counter wraps at 2^32 (`Witness.CounterIsExact`).
- A torn header that decodes, outranks the good state and does not match the payload beside it loses
  nothing at the next load. The flush after that is no longer safe: cut after its payload landed and
  before its header, it can be adopted under the torn header. `SdStore.TornHeaderSafeIff` says exactly
  which torn headers do this, and `SdStore.TornHeaderMixes` gives a load that returns a payload no
  flush was ever asked for.
- A `Get` on a region that never decoded answers a store error, not "missing", unless decoding failed
  on a key length (`BlobServer.GetAnswersLatestPut`). The all-zero region is one
  (`BlobServer.BlankStoreIsUnreadable`).
- A full ledger loses the frame it refuses; that is the only way a frame is lost. A life loses one
  exactly when its requests need at least 256 frames beside the root and the pool held more than 256
  (`SpaceLife.Lifetime`). Creation refuses no window for its size, so one text page and 256 stack pages
  are enough (`SpaceAddresses.LosingWindow`, `SpaceAddresses.LargeWindowLoses`).
- The virtqueue driver bounds buffers in flight, not completions waiting: the ninth unpolled one
  overwrites the first (`Virtio.NinthOverwritesFirst`, `Virtio.PollYields`). `reset` keeps the ring
  memory, so a restarted queue is clean only if both indices stood at zero (`Virtio.ResetAgrees`).
- The packer cuts a name to sixteen bytes without a word; `AgentStore.RoundTrip` says exactly which
  lists come back.
- The lock comment in `src/sync.rs` says handlers never take these locks and lists four orders. In
  the code `irq::wait::signal` takes the wait table's lock from the IRQ path, and more locks nest
  than are listed. The transmit lock is not a leaf either: the idle report
  (`src/bootstrap/console_loop.rs:287-301`) formats its counters inside the transmit section, so the
  scheduler's and the frame pool's locks are taken under it. The model follows the code: handlers may
  take locks, and `LockOrder.KernelNesting` holds the nestings of the call sites.
- The panic handler takes the transmit lock whatever is held, so a panic inside a transmit section
  spins for good (`LockOrder.PanicUnderTxHangs`). `LockOrder.KernelNeverDeadlocks` is about runs
  without a panic.

## Model

| member | source | states |
|---|---|---|
| PageTables.SameWalkIffSamePage | crates/kernel-core/src/paging.rs:91-98 | two addresses use the same three table entries exactly when they are the same page of the 39-bit space |
| PageTables.LookupFrame | src/mm/aspace.rs:528-570 | a walk depends on nothing but the space's own tables |
| PageTables.WriteAtNode | src/mm/aspace.rs:528-570 | writing one descriptor on the path of a page changes the walks of exactly the pages that pass through that entry |
| PageTables.LinkEmpty | src/mm/aspace.rs:547-553 | linking a zeroed table into an empty entry changes no translation; the pages through it lack one table less, and no other walk changes |
| PageTables.MapLeaf | src/mm/aspace.rs:561-567 | a leaf at the bottom of a walk maps that one page and no other |
| PageTables.ClonedWalks | src/mm/aspace.rs:573-612 | tables whose entries all mean the same translate every page the same |
| FramePlan.UnderwayEnds | src/mm/aspace.rs:318-326 | a run of pages ends at the first page that cannot be had, for that page's reason: a shortage of frames, a full ledger, something in the way, an address no leaf can hold |
| FramePlan.UnderwayStep | src/mm/aspace.rs:318-326 | page by page, exactly the planned frames go and exactly the planned tables stand |
| FramePlan.ItemsSince | src/mm/aspace.rs:528-570 | what a run of pages will take depends only on which tables are missing, so it can be told from the kernel's tables and what was mapped since |
| FramePlan.PlanFrame | src/mm/aspace.rs:573-612 | what a clone will take depends only on the source's tables |
| FramePlan.CloneRefused | src/mm/aspace.rs:573-612 | given the frames, a clone is refused exactly when some page's walk of the source ends at a descriptor that leads nowhere |
| FrameBooks.Machine.Alloc | crates/kernel-core/src/frame.rs:102-110 | a frame that nobody had in use, or none exactly when the stack is empty; the pool stays a partition of free and in use |
| FrameBooks.Machine.Free | crates/kernel-core/src/frame.rs:113-126 | succeeds exactly on frames in use, so a double free changes nothing |
| FrameBooks.GrowsKeepsForeign | src/mm/aspace.rs:528-612 | whatever a space does, memory outside the pool, frames of others and frames lost keep their content |
| FrameBooks.SettledThen | src/mm/aspace.rs:220-236 | a success followed by anything keeps the books as the second step alone would: one frame lost exactly on a ledger refusal |
| TableClone.KernelKept | src/mm/aspace.rs:573-612 | the kernel's tables are unchanged by anything a space does |
| TableClone.CloneLink | src/mm/aspace.rs:597-607 | linking a filled child extends the clone by one entry with the same meaning, and touches nothing in use |
| TableClone.PaidStops | src/mm/aspace.rs:573-612 | the entry that ends a clone ends it for the reason and at the cost planned |
| TableMap.WalkLink | src/mm/aspace.rs:547-553 | hanging a new table during a walk moves no translation, costs one frame, and accounts for every missing table of every page |
| TableMap.WalkLeaf | src/mm/aspace.rs:561-567 | the page goes from unmapped to the leaf and every other page stays; the frames spent are exactly the tables that were missing |
| TableMap.WalkShort | src/mm/aspace.rs:547-553 | a walk that runs short part way is one whose missing tables did not fit the pool and the ledger at the start |
| TableMap.WalkBlocked | src/mm/aspace.rs:554-563 | a walk that meets a block, a page or a descriptor of no meaning had hung nothing |
| AddressSpace.Space.constructor | src/mm/aspace.rs:188-213 | a space with one owned frame, an empty root and nothing lost is sound |
| AddressSpace.Space.TakeFrame | src/mm/aspace.rs:466-470 | out of frames exactly on an empty pool, refused by the ledger exactly when it is full and the pool is not, and then exactly that frame is lost; otherwise a frame new to everybody |
| AddressSpace.Space.CloneTableInto | src/mm/aspace.rs:573-612 | succeeds exactly when no entry is without meaning and a frame for each table fits pool and ledger, in the order reached; then every page translates through the copy as through the source, tables are all new, and no frame in use changes but the destination |
| AddressSpace.Space.CloneChild | src/mm/aspace.rs:597-607 | one table entry cloned with its whole subtree, ending and costing as its plan says |
| AddressSpace.Space.MapL3Page | src/mm/aspace.rs:528-570 | succeeds exactly when the walk ends at an empty entry, the address fits a leaf and the missing tables fit pool and ledger, with each error as its cause; success maps exactly that page, failure changes no translation, and the frames spent are the tables missing |
| AddressSpace.Space.Descend | src/mm/aspace.rs:543-560 | one level further down, through the table found or a new empty one, with no translation changed; an error is the one the walk was bound for |
| AddressSpace.Space.HangTable | src/mm/aspace.rs:548-550 | a new table is zeroed and recorded before it is linked; refused exactly as a single frame is |
| AddressSpace.Space.PrepareForEl0 | src/mm/aspace.rs:220-236 | ends as planned from the kernel's tables, the window, the pool and the ledger; on success every page translates as the kernel's root did, the window's pages aside, every frame of the window is zero and the stack starts at its top; a second prepare, or one without a kernel root, changes nothing |
| AddressSpace.Space.MapUserWindow | src/mm/aspace.rs:496-525 | ends as planned; one zeroed frame of the space's own behind each page, text first, recorded in order; `SpaceView.WindowPages` says what each page allows |
| AddressSpace.Space.MapWindowPage | src/mm/aspace.rs:498-523 | one more page of the window, or the failure that was planned, with the books settled |
| AddressSpace.Space.MapOne | src/mm/aspace.rs:528-570 | in a prepared space exactly the one page joins what is mapped, or nothing does, as planned from its walk |
| AddressSpace.Space.MapRegion | src/mm/aspace.rs:318-326 | the pages mapped are the longest leading run that tables, addresses and frames allow, all of it exactly on success, and nothing mapped before is touched |
| AddressSpace.Space.MapDeviceRegion | src/mm/aspace.rs:300-327 | unaligned exactly for a prepared space and a length of zero, an address or length that is no multiple of 4096, or a sum that reaches 2^64; refusals change nothing; otherwise device leaves over the longest leading run that can be had, ending as planned |
| AddressSpace.Space.MapNormalRegion | src/mm/aspace.rs:329-355 | unaligned exactly for an unprepared space or for the same numbers; otherwise normal leaves over the longest leading run that can be had |
| AddressSpace.Space.MapPacketPool | src/mm/aspace.rs:361-388 | granted, prepared and once only; the service's eight pages are mapped up to the first that cannot be and never owned; unaligned exactly at a null or crooked address |
| AddressSpace.Space.PokeUser | src/mm/aspace.rs:407-443 | inside the text every byte written stands where it was written and every other byte of memory is as it was, however the frames lie; outside it nothing is written |
| AddressSpace.Space.WriteText | src/mm/aspace.rs:415-441 | the page-by-page copy equals the flat write, and no text page lacks its frame |
| AddressSpace.Space.Destroy | src/mm/aspace.rs:476-487 | every owned frame goes back exactly once, in use are then only others' frames and the lost ones, and the tag is free again with no TLB entry left under it |
| AddressSpace.ReturnTag | src/mm/aspace.rs:482-485 | a tag goes back only once no TLB entry is left under it, so teardown cannot skip or reorder the invalidate |
| AddressSpace.Space.Enter | src/mm/aspace.rs:254-256 | bits 48 to 55 of the word installed are this tag and the bits below this root; from then on entries may exist under the tag |
| AddressSpace.Space.FreeOwned | src/mm/aspace.rs:615-620 | each owned frame is still in use when its turn comes, so every free succeeds |
| SpaceView.ViewMapped | src/mm/aspace.rs:528-570 | one mapped page extends the meaning of a space by that page, which was not in it |
| SpaceView.UserPagesAreMapped | src/mm/aspace.rs:488-495 | with kernel leaves denied to EL0, a page EL0 reaches was mapped for it |
| SpaceView.WindowIsWX | src/mm/aspace.rs:511-515 | every window page leads to one of its frames and is writable or executable, never both |
| SpaceView.WindowPages | src/mm/aspace.rs:511-515 | page i of the window leads to frame i, for EL0, in normal memory; it can be run exactly if it is text and written exactly if it is not |
| SpaceView.PoolPages | src/mm/aspace.rs:371-386 | page i of the pool is page i of the service, for EL0 to read and write and never to run |
| SpaceView.RegionPages | src/mm/aspace.rs:318-326 | what a region adds is its own pages with their own leaves, nothing else |
| SpaceView.PageAddrIs | src/mm/aspace.rs:371-382 | stepping one page at a time reaches the base plus that many pages |
| SpaceView.WindowGrows | src/mm/aspace.rs:498-523 | a zeroed frame behind its leaf keeps all earlier translations and frames |
| SpaceView.PokeIsFlat | src/mm/aspace.rs:418-441 | a write inside one page is the same write in the flat text, however the frames lie |
| SpaceView.PokeKeeps | src/mm/aspace.rs:407-443 | writing the text moves no translation and keeps the books and the rest of the window |
| SpaceLife.Create | src/mm/aspace.rs:161-214 | fails exactly for a window without one to sixteen text pages and at least one of stack, no tag or no frame, in that order, and then leaves frames and tags as they were |
| SpaceLife.RefusedExactly | crates/kernel-core/src/layout.rs:341-348 | which page counts pass, in numbers, the wrap of the sum included |
| SpaceLife.Perform | src/mm/aspace.rs:220-443 | any one request ends as planned, keeps the space valid, adds the leading run it reached, or on a first prepare the window |
| SpaceLife.Serve | src/mm/aspace.rs:220-443 | after any run of requests from creation on, a prepared space translates as the kernel, its window and exactly what each request added; every answer up to the first shortage is the one foreseen, and a frame is lost exactly if that was foreseen |
| SpaceLife.KernelUnmoved | src/mm/aspace.rs:573-612 | after any run of requests the kernel translates every page as before and shares no table with the space |
| SpaceLife.Lifetime | src/mm/aspace.rs:161-628 | create, any requests, destroy: all tags come back with no TLB entry under a free one, nothing foreign was written, and all frames come back unless the requests need 256 frames and the pool holds more than that, which can be told before the call together with every answer up to the first shortage |
| SpaceForecast.CourseKept | src/mm/aspace.rs:220-443 | while the frames foreseen fit, a run is where it was foreseen; after that the pool is empty for good or the ledger has refused a frame, whichever was to come first |
| SpaceForecast.AskedSince | src/mm/aspace.rs:300-388 | what a request takes now is what was foreseen from the kernel's tables and the pages mapped since |
| SpaceAddresses.PagesDistinct | crates/kernel-core/src/paging.rs:91-98 | consecutive pages have walks of their own until the 39-bit space is once round |
| SpaceAddresses.RegionTranslates | src/mm/aspace.rs:318-326 | with the kernel's address split, every address of a mapped region translates to its offset into the physical run and every other address as before |
| SpaceAddresses.WindowStands | src/mm/aspace.rs:488-525 | every address of the window translates into the frame of its page; the text can be run and not written, the rest up to the top written and not run |
| SpaceAddresses.ServedWindowStands | src/mm/aspace.rs:220-443 | that still holds after any requests since creation, up to the address the stack pointer starts at |
| SpaceAddresses.WindowReads | src/mm/aspace.rs:407-443 | a load from the window brings the byte of its frame, so the program sees what was poked |
| SpaceAddresses.ElsewhereIsKernel | src/mm/aspace.rs:573-612 | an address of no mapped page translates as under the kernel's root |
| SpaceAddresses.BlockCovers | crates/kernel-core/src/paging.rs:80-98 | a leaf found at level one, two or three holds for the whole gigabyte, two megabytes or page around the address |
| SpaceAddresses.MapOnePage | src/bootstrap/loader.rs:512-526 | mapping one page succeeds exactly when nothing is there, the missing tables fit pool and ledger, and the address is below 2^48; then that page translates to it and every other address as before |
| SpaceAddresses.LargeWindowLoses | src/mm/aspace.rs:496-525 | preparing a window of 256 pages or more over vacant kernel addresses loses a frame whenever the pool holds more than 256 |
| SpaceAddresses.LosingWindow | src/mm/aspace.rs:161-178 | such a window passes creation: one text page, 256 stack pages, a kernel that maps nothing |
| SpaceAddresses.SmallWindowKeeps | src/mm/aspace.rs:220-236 | a clone and three frames a page that together stay below 256 lose nothing, however large the pool |
| Asid.NearestExists | crates/kernel-core/src/asid.rs:73-95 | while a tag is free there is exactly one nearest from the hint |
| Asid.Probe | crates/kernel-core/src/asid.rs:79-93 | a probe that misses rules out its distance, so a whole turn cannot miss |
| Asid.Pool.constructor | crates/kernel-core/src/asid.rs:61-70 | every tag but the kernel's is free |
| Asid.Pool.Alloc | crates/kernel-core/src/asid.rs:73-95 | the first free tag cyclically from the hint, exactly when one exists; the defensive way out is never taken |
| Asid.Pool.Release | crates/kernel-core/src/asid.rs:98-108 | succeeds exactly on live tags, and the count stays the number of set bits |
| Asid.Ttbr0RoundTrip | crates/kernel-core/src/asid.rs:28-43 | root and tag come back from the packed word |
| Asid.Ttbr0Bits | crates/kernel-core/src/asid.rs:28-31 | the tag stands in bits 48 to 55, the root below, nothing above |
| TlbProtocol.StepInv | src/mm/aspace.rs:179-186 | every step of every interleaving keeps tags owned once and every cached entry with its owner |
| TlbProtocol.NoStaleEntryAtCreate | src/mm/aspace.rs:476-487 | a tag handed out at any point of any run has no TLB entry left from an earlier owner |
| TlbProtocol.NoForeignTranslation | src/mm/aspace.rs:615-628 | whatever a CPU can hit while running a space was cached for that space |
| TlbProtocol.LiveTagsDistinct | crates/kernel-core/src/asid.rs:73-108 | live spaces hold distinct non-zero tags, and free plus owned is every tag |
| TlbProtocol.EarlyFreeIsStale | src/mm/aspace.rs:482-485 | with the tag freed before the invalidate, the next space inherits stale entries: the order is needed |
| TlbProtocol.EarlyFreeReached | src/mm/aspace.rs:482-485 | such a state is reached from the initial one, entry and all |
| Crc.ComputeCrc32 | crates/kernel-core/src/durable_media.rs:79-93 | the two loops compute the checksum defined bit by bit, which `CrcDivision.Crc32IsRemainder` and `CrcCheck.CheckValue` say what it is |
| CrcDivision.Crc32IsRemainder | crates/kernel-core/src/durable_media.rs:77-93 | the checksum is the complement of the remainder, by the 802.3 generator, of the message shifted by 32 with its first 32 bits complemented; exactly one 32-bit number is |
| CrcCheck.CheckValue | crates/kernel-core/src/durable_media.rs:162-167 | the digits one to nine give 0xCBF43926, the empty message zero |
| Crc.BitsLinear | crates/kernel-core/src/durable_media.rs:84-89 | the bit step is linear over exclusive or |
| Crc.BitInjective | crates/kernel-core/src/durable_media.rs:86-88 | the bit step loses nothing of the register |
| Crc.BurstDetected | crates/kernel-core/src/durable_media.rs:79-93 | payloads of any length that differ only inside 32 adjacent bits, at any bit offset, have different checksums |
| Crc.Crc32Onto | crates/kernel-core/src/durable_media.rs:79-93 | four more bytes can bring the checksum to any 32-bit value |
| Crc.Crc32Fits | crates/kernel-core/src/durable_media.rs:79-93 | the checksum is a 32-bit number |
| DurableMedia.HeaderRoundTrip | crates/kernel-core/src/durable_media.rs:96-127 | a header decodes to the sequence number and checksum it was made of, and validates its payload |
| DurableMedia.HeaderOnBytes | crates/kernel-core/src/durable_media.rs:106-119 | which twenty bytes are a header, and where number and checksum stand |
| DurableMedia.ValidExactly | crates/kernel-core/src/durable_media.rs:121-127 | a slot is valid exactly when its header decodes and names its payload's checksum |
| DurableMedia.BurstRejected | crates/kernel-core/src/durable_media.rs:121-127 | no header validates two payloads that differ only inside 32 adjacent bits |
| DurableMedia.RegionOnto | crates/kernel-core/src/durable_media.rs:79-93 | every checksum is that of some region |
| DurableMedia.BuildHeader | crates/kernel-core/src/durable_media.rs:96-103 | the buffer filled in place is the header sector |
| SlotProtocol.LoadOfFinds | crates/kernel-core/src/durable_media.rs:131-151 | a load finds exactly the state the media holds, with no assumption about checksum collisions |
| SlotProtocol.LoadExact | crates/kernel-core/src/durable_media.rs:131-151 | on any media the load is the valid slot with the higher number, slot A of two equals, none exactly if neither is valid |
| SlotProtocol.LandCommits | crates/kernel-core/src/durable_media.rs:63-68 | a header that lands commits exactly when it outranks the good state |
| SlotProtocol.TornIsAllOrNothing | crates/kernel-core/src/durable_media.rs:106-151 | any bytes in the commit sector leave the complete old state or the complete new payload |
| SdStore.FlushStep | src/drivers/sdhci.rs:268-285 | one flush, cut anywhere before the header, moves the good state exactly when the header landed |
| SdStore.CrashAtomicity | src/drivers/sdhci.rs:240-285 | from fresh media, through any boots and cuts, the next load returns the last payload whose header landed, and the sequence number is the number of commits |
| SdStore.SlotSectors | src/drivers/sdhci.rs:240-263 | headers at sectors 0 and 16 of the partition, payloads from 1 and 17 on, byte by byte |
| SdStore.TornHeaderIsAllOrNothing | src/drivers/sdhci.rs:268-285 | after a torn header sector the load is the old payload or the new one, whole |
| SdStore.TornHeaderSafeIff | src/drivers/sdhci.rs:240-285 | after a torn header the next boot's flush survives every cut exactly when the torn header does not outrank the good state or carries the checksum of the payload beside it |
| SdStore.TornHeaderMixes | src/drivers/sdhci.rs:240-285 | otherwise a later load can return a payload that no flush was asked for: torn header, then a flush cut after one sector |
| SdStore.SafeIffOpposite | src/drivers/sdhci.rs:268-276 | a flush survives every cut exactly when it aims at the slot opposite the good one |
| SdStore.SecondFlushFromOneLoadLoses | src/bootstrap/witness.rs:153-160 | a second commit from the same load can lose the first |
| Sdhci.Card.ReadPayload | src/drivers/sdhci.rs:306-318 | the region is the sectors run together, or an error at the first failing read |
| Sdhci.Card.MediaLoad | src/drivers/sdhci.rs:240-263 | the good state's payload, slot and sequence number; the buffer is untouched on fresh media and on error |
| Sdhci.Card.WritePayload | src/drivers/sdhci.rs:277-281 | exactly the leading sectors that landed are on the media |
| Sdhci.Card.MediaFlush | src/drivers/sdhci.rs:268-285 | wherever the transport stops, the media is the cut flush, and success means every write landed |
| Sdhci.Card.MediaVerify | src/drivers/sdhci.rs:289-304 | true exactly when the slot commits this payload at this number |
| Sdhci.FlushVerifies | src/drivers/sdhci.rs:268-304 | the read-back after a flush that succeeded always confirms it |
| DurableFormat.Encode | crates/kernel-core/src/durable.rs:50-88 | succeeds exactly on a legal list that fits, with the whole image; a refusal leaves the image of the blobs before it, and an early one an untouched buffer |
| DurableFormat.RefusalExact | crates/kernel-core/src/durable.rs:66-77 | which blob is refused and why, in numbers |
| DurableFormat.ImageOnBytes | crates/kernel-core/src/durable.rs:57-62 | the sixteen bytes of the head, and zeros after the last record |
| DurableFormat.DecodeBlobs | crates/kernel-core/src/durable.rs:91-137 | the loop stops at the first bad record with its error |
| DurableFormat.DecodeOnBytes | crates/kernel-core/src/durable.rs:91-137 | each error of a decode, and its success, as a condition on the bytes of the buffer |
| DurableFormat.DecodedRecord | crates/kernel-core/src/durable.rs:112-134 | each blob decoded is the key and payload standing in its record |
| DurableFormat.DecodeLegal | crates/kernel-core/src/durable.rs:107-135 | whatever decodes is a legal list |
| DurableFormat.RoundTrip | crates/kernel-core/src/durable.rs:50-137 | decode of encode is the list, for every legal list |
| DurableFormat.RegionFits | crates/kernel-core/src/durable.rs:8-12 | every legal list fits a region |
| DurableStore.Store.Put | src/durable/mod.rs:45-97 | in place, refusals in order; the final encode never fails |
| DurableStore.Store.Get | src/durable/mod.rs:121-138 | the payload filed under the key, or why not |
| DurableStore.Store.Restore | src/durable/mod.rs:113-118 | the region is exactly the bytes given |
| DurableStore.EncodeNeverFails | src/durable/mod.rs:86-97 | past the checks of put nothing can stop the encoder |
| DurableStore.PutRefines | src/durable/mod.rs:45-97 | on every region an accepted put updates one key of the map and a refused one changes no byte, with the exact condition for acceptance |
| DurableStore.PutErrorsExact | src/durable/mod.rs:57-84 | each refusal of a put, in numbers: full before bad key before long payload |
| DurableStore.GetExact | src/durable/mod.rs:121-138 | each answer of a get, from the stored map |
| DurableStore.FirstWins | src/durable/mod.rs:57-67 | of two records under one key the first counts |
| DurableStore.GetRefines | src/durable/mod.rs:121-138 | get on a decodable region is a map lookup |
| DurableStore.PutThenGet | src/durable/mod.rs:45-138 | what was put is got, and every other key answers as before |
| DurableStore.RunRefines | src/durable/mod.rs:45-97 | any run of puts is a run of a map of at most four keys |
| BlobWire.PackBytes | crates/kernel-core/src/blob.rs:30-38 | the loop builds the word whose low bytes are the data and top byte the length |
| BlobWire.UnpackBytes | crates/kernel-core/src/blob.rs:40-52 | the loop recovers the field, or refuses the length |
| BlobWire.WireRoundTrip | crates/kernel-core/src/blob.rs:30-57 | one to seven bytes survive the wire |
| BlobWire.UnpackSound | crates/kernel-core/src/blob.rs:40-52 | nothing outside one to seven bytes ever unpacks |
| BlobWire.Repacked | crates/kernel-core/src/blob.rs:30-52 | packing an unpacked word gives it back exactly when its unused bytes were zero |
| BlobWire.DecodeExact | crates/kernel-core/src/blob.rs:72-84 | which messages are requests and what they ask, in the wire's numbers, and each error |
| BlobServer.Handle | src/bootstrap/blob_server.rs:39-81 | region and reply after one message; `BlobServer.TagsTell` and `BlobServer.GetReplies` say what a client sees |
| BlobServer.Run | src/bootstrap/blob_server.rs:17-37 | over any messages, every reply is the one the conversation so far calls for |
| BlobServer.HandleStep | src/bootstrap/blob_server.rs:39-81 | one message moves the stored map exactly as its reply says |
| BlobServer.ContentIsLatestPut | src/bootstrap/blob_server.rs:39-81 | after any messages from an empty store a key holds the payload of its latest successful put |
| BlobServer.GetAnswersLatestPut | src/bootstrap/blob_server.rs:58-79 | every Get is answered with tag 0x1003 exactly if some Put on its key succeeded, and unpacks to the latest; with none it says missing, 0x1004, or read error, 0x1006 code 4, by a condition on the bytes the store began with |
| BlobServer.TagsTell | src/bootstrap/blob_server.rs:39-81 | the reply is 0x1005 exactly when the message is no request; only a Get is answered 0x1004; no other tag occurs |
| BlobServer.GetReplies | src/bootstrap/blob_server.rs:58-79 | on any region that decodes: missing, too long for the wire, or the payload packed |
| BlobServer.BlankStoreIsUnreadable | src/bootstrap/blob_server.rs:58-79 | a store of zeros answers every Get with a read error until its first Put |
| BlobServer.PutAnswers | src/bootstrap/blob_server.rs:48-57 | a Put is refused exactly when its key is new and four keys are held |
| BlobServer.OnlyGoodPutsWrite | src/bootstrap/blob_server.rs:40-46 | malformed messages, Gets and refused Puts touch no byte |
| Witness.RestoreFrom | src/bootstrap/witness.rs:114-124 | the region becomes the good state on media, or stays |
| Witness.Open | src/bootstrap/witness.rs:114-147 | the count reported is one more than the one found on media, and is back in the region |
| Witness.Commit | src/bootstrap/witness.rs:153-170 | the region is flushed opposite the slot that was loaded, wherever the transport stops |
| Witness.RunBoot | src/bootstrap/witness.rs:69-170 | one boot, open to commit, leaves the media and prints the count that the run-level statements are about |
| Witness.CountAdvances | src/bootstrap/witness.rs:126-145 | after n commits a boot counts n + 1 and its put is accepted |
| Witness.ColdStep | src/bootstrap/witness.rs:114-170 | one cold boot adds one to the count on media exactly when its header lands |
| Witness.CounterIsExact | src/bootstrap/witness.rs:114-170 | whatever was cut, the next cold boot reports one plus the number of earlier boots whose header landed |
| Witness.CounterIsStored | src/bootstrap/witness.rs:126-170 | and the card holds that many commits, as four bytes under the key `boot` |
| SpinLocks.StepInv | src/sync.rs:138-180 | every step of every CPU keeps locks held once, masked, in a permitted order, each mask as found |
| SpinLocks.MutualExclusion | src/sync.rs:138-180 | in every reachable state a lock has at most one holder, in one place |
| SpinLocks.InterruptFindsNothingHeld | src/irq/wait.rs:41-51 | an interrupt only lands on a CPU that holds no lock and waits for none |
| SpinLocks.KnownIsHeld | src/irq/wait.rs:41-51 | what running code knows it holds is all its CPU holds, in a handler too |
| SpinLocks.ParkedHoldsNothing | src/sched/mod.rs:1329-1370 | a task off the CPU holds no lock and comes back masked |
| SpinLocks.MaskRestored | src/arch/aarch64/cpu.rs:80-86 | a thread back to what it had open has the mask it had, across switches, CPUs and interrupts |
| LockOrder.MovesIffNoRing | src/sync.rs:166-175 | on n CPUs, behind every CPU of every reachable state stands one that can move, exactly when the nesting has no ring of at most n locks |
| LockOrder.DeadlockIffRing | src/sync.rs:86-108 | on n CPUs a cycle of waiting CPUs is reachable exactly when the nesting has a ring of at most n locks |
| LockOrder.RankedIffNoRing | src/sync.rs:86-108 | the locks can be ranked along the nesting exactly when it has no ring |
| LockOrder.RingDeadlocks | src/sync.rs:86-108 | any ring in the nesting is run into by as many CPUs as it has locks |
| LockOrder.KernelNeverDeadlocks | src/bootstrap/console_loop.rs:287-301 | with the kernel's own nestings, on any number of CPUs, no deadlock is reachable and every waiting CPU has one behind it that moves |
| LockOrder.PanicUnderTxHangs | src/console.rs:148-154 | a panic inside a transmit section waits for its own CPU |
| CapSlots.CapRoundTrip | crates/kernel-core/src/cap.rs:62-76 | an id is exactly its index and generation |
| CapSlots.ClassifyInverts | crates/kernel-core/src/cap.rs:97-106 | class and payload give the index back; both band bits set is the one refusal |
| CapSlots.ClassifyReads | crates/kernel-core/src/cap.rs:97-117 | an id minted in a band decodes to that band and payload |
| CapSlots.ClassifyBands | crates/kernel-core/src/cap.rs:97-117 | the bands in numbers: below 0x4000 an endpoint, then a task, then an interrupt, the top quarter refused |
| CapSlots.TransferExact | crates/kernel-core/src/capslots.rs:114-141 | a transfer goes through exactly for an endpoint into an empty slot, or onto itself |
| CapSlots.TransferErrors | crates/kernel-core/src/capslots.rs:114-141 | each refusal as a condition on the two slots |
| CapSlots.TransferBack | crates/kernel-core/src/capslots.rs:114-141 | the cap is in the one slot and gone from the other, and the transfer back restores the table |
| CapSlots.Table.Get | crates/kernel-core/src/capslots.rs:55-60 | a slot resolves only inside the task's own row; empty and out of range told apart |
| CapSlots.Table.Holds | crates/kernel-core/src/capslots.rs:63-67 | exactly when some slot of the row resolves to the cap |
| CapSlots.Table.Seed | crates/kernel-core/src/capslots.rs:71-78 | slot for slot the list given, empty past it; other rows stay |
| CapSlots.Table.Install | crates/kernel-core/src/capslots.rs:81-91 | exactly into an empty slot in range |
| CapSlots.Table.TransferBounds | crates/kernel-core/src/capslots.rs:97-105 | source bound before destination bound |
| CapSlots.Table.Transfer | crates/kernel-core/src/capslots.rs:114-141 | refusals in the ABI's order change nothing; otherwise one cap moves |
| CapSlots.Table.Drain | crates/kernel-core/src/capslots.rs:144-149 | the row as it was comes out and is empty afterwards |
| CapSlots.TransferConserves | crates/kernel-core/src/capslots.rs:114-141 | a transfer keeps the number of every cap in the table |
| CapSlots.SeedHolds | crates/kernel-core/src/capslots.rs:71-78 | a seed grants exactly what the list names in its first slots |
| CapSlots.RunConserves | crates/kernel-core/src/capslots.rs:71-149 | over any run, for every cap, held now and let go equals held before and granted |
| CapSlots.RunConfines | crates/kernel-core/src/capslots.rs:131-136 | a cap that is not an endpoint is only ever in rows it started in or was granted to by name |
| Virtio.Configured.Publish | src/drivers/virtio_mmio.rs:157-203 | an address that is null or no multiple of 16, or a length outside 1 to 2060, is refused first, then the queue, then a full ring, and the queues stay; otherwise one buffer is published in its queue only |
| Virtio.Configured.PostRx | src/drivers/virtio_mmio.rs:113-115 | a buffer with the write flag in queue 0, exactly when its address and length are good and the ring is not full |
| Virtio.Configured.SubmitTx | src/drivers/virtio_mmio.rs:118-120 | a buffer without flags in queue 1, exactly when its address and length are good and the ring is not full |
| Virtio.Configured.PollUsed | src/drivers/virtio_mmio.rs:123-155 | the element at the cursor's slot, or none; an unknown queue is refused |
| Virtio.Configured.Reset | src/drivers/virtio_mmio.rs:94-97 | both cursors go to zero and the ring memory stays |
| Virtio.FullIsEight | src/drivers/virtio_mmio.rs:177-181 | the 16-bit difference is the number of buffers in flight through any wrap, and full means eight |
| Virtio.RunSafe | src/drivers/virtio_mmio.rs:157-203 | over every run, the device acting between any two of the driver's writes, at most eight are in flight and the device has seen exactly the buffers published, in order, none overwritten under it |
| Virtio.DeviceWritesOnlyReceive | src/drivers/virtio_mmio.rs:113-120 | over every run the device sees only buffers handed over, and may write exactly those posted for receive |
| Virtio.PublishIsSteps | src/drivers/virtio_mmio.rs:157-203 | check, descriptor, ring and index written one after the other are the publish of the method |
| Virtio.PollYields | src/drivers/virtio_mmio.rs:123-155 | what a poll finds, and that it is the next completion exactly while at most eight are unpolled |
| Virtio.PromptPollsInOrder | src/drivers/virtio_mmio.rs:123-155 | polled promptly, every completion comes back once and in order |
| Virtio.NinthOverwritesFirst | src/drivers/virtio_mmio.rs:174-181 | from the start, nine completions without a poll make the first poll return the ninth |
| Virtio.ManyUnpolled | src/drivers/virtio_mmio.rs:157-203 | any number of buffers can go round without one being polled |
| Virtio.ResetAgrees | src/drivers/virtio_mmio.rs:94-110 | after a reset driver and device agree exactly when both indices stood at a multiple of 65536; otherwise an old completion is polled again |
| AgentStore.Parse | crates/kernel-core/src/agentstore.rs:116-226 | the records or the first error, in the order the fields are read |
| AgentStore.SpelledIsRead | crates/kernel-core/src/agentstore.rs:136-223 | bytes that spell a legal agent are read as that agent |
| AgentStore.ReadIsSpelled | crates/kernel-core/src/agentstore.rs:136-223 | a record read from any bytes at all is legal, lies inside the buffer and is spelled there |
| AgentStore.ParseSound | crates/kernel-core/src/agentstore.rs:116-226 | on any input, what parses is one to eight legal agents with ascending disjoint images inside the buffer |
| AgentBytes.RecordRules | crates/kernel-core/src/agentstore.rs:136-223 | thirteen rules on the bytes of a record, in order: it is read exactly when it breaks none, and the first broken names the error |
| AgentBytes.RecordFields | crates/kernel-core/src/agentstore.rs:136-223 | where each field of a record stands |
| AgentBytes.ParseRules | crates/kernel-core/src/agentstore.rs:116-226 | the error of any bytes at all: the first rule broken, of the head, then of the first bad record |
| AgentBytes.PackedHead | scripts/agent/pack-store.py:382-394 | the sixteen bytes a packed store begins with |
| AgentBytes.PrintedPadding | scripts/agent/pack-store.py:341-380 | a printed record is zero after its name and after its image |
| AgentStore.AppendAgent | scripts/agent/pack-store.py:341-380 | the record with its padding, and the buffer stays a multiple of four |
| AgentStore.Pack | scripts/agent/pack-store.py:382-394 | header and records in order |
| AgentStore.RoundTrip | crates/kernel-core/src/agentstore.rs:231-296 | a packed list with anything after it parses back exactly when it is one to eight agents that keep the rules |
| AgentStore.EntrySlots | crates/kernel-core/src/agentstore.rs:300-306 | the marker means empty, every other byte is kept |

## Left out

- Endpoint receive and send of the blob service, and its exit on their failure: messages arrive as a list.
- Scheduler decisions, run queues, mailboxes, replies, lifecycle and task caps: `src/sched` and `src/ipc` are used only for the locks they nest.
- Descriptor bit layouts: descriptors are values, with the alignment and range checks of the leaf constructor; a leaf's attribute bits are not modelled.
- `map_device_page`: the checks of `map_device_region` over one page; it would only add an easy member.
- Cache and barrier instructions: memory is sequentially consistent, and the text writer's cache maintenance is not modelled.
- Two spaces in flight on one frame pool: each method is one space's work; other holders appear as frames in use that stay as they are. Their interleaving is modelled for tags and the TLB only.
- SD command layer, partition table and UART output around the boot counter: loads start at the partition's first sector.
- `restart` and feature negotiation of the virtio transport: register sequences; only what `reset` leaves in the rings is stated.
- UTF-8 validity: any predicate; the packer's assembler step and command line are not modelled.
- LockOrder.MovesIffNoRing: progress, not fairness; the spin bit has no queue, so which waiter wins is open.
- LockOrder.KernelNeverDeadlocks: runs without a panic; the panic path takes the transmit lock under anything.
- The spin loop of `raw_lock` as a method: it need not end, so its attempts are the `Acquire` and `Spin` steps.
- Memory ordering of the lock bit: a compare-and-exchange is one step.
- Rights bits of endpoints, the drawing, touch, network and device drivers, bring-up, panic and selftest: register sequences or small decodes.
