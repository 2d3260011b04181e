# Xhyper: a verified model of its memory, allocation, locking and interrupt cores

Xhyper is a small ARM64 hypervisor. This project models its stateful cores in Dafny and proves what they
promise: stage-2 translation over a raw frame allocator and the loading of a guest through it, the slab
allocator, the spinlock with the page allocator under it, virtual interrupt injection, MMIO trap dispatch,
the byte-per-interrupt distributor registers, and number formatting. `dafny verify dfyconfig.toml` checks
everything.

## How the model is laid out

| file | models | form |
|---|---|---|
| Bits, Memory | C's masks and shifts on naturals; memory as bytes, words and 4 KiB frames | functions |
| Stage2 | descriptor bits of vmm.h, the hardware's 4-level walk (ARM DDI 0487, section D5.3), the table graph | functions |
| Lists | a linked list as the sequence of addresses it runs through | functions |
| Frames, Ownership | one role per pool frame; the free list threaded through the free ones | functions |
| Kalloc | kalloc.c, memset, memcpy over one byte array | class `Machine` |
| Vmm, TableCost | vmm.c, and what a mapping costs in table pages | methods on `Machine` |
| GuestVm, Boot | do_memory_mapping, do_device_mapping, the memory side of create_guest_vm | methods on `Machine` |
| CreateVm | create_guest_vm from the root table on: memory, UART, and the GIC's traps | method on `Machine` and `Vm` |
| Vmmio | vmmio.c and create_mmio_trap | classes `Region`, `Vm` |
| Xmalloc, BlkPool | xmalloc.c: the heap invariant on values, and the pool updated in place | functions; class `BlkPool` |
| SpinAlloc | spinlock.c and kalloc.c as interleaved atomic steps of any number of cores | state machine |
| Linear | the interleaved allocator of SpinAlloc against the sequential one of Kalloc | history of calls; methods on `Machine` |
| Vgic, VgicCpu | list registers and physical interrupts as a machine of hypervisor, guest and device events; the same code on a 16-bit map and a register array | state machine; class `Cpu` |
| VgicRegs | the IPRIORITYR and ITARGETSR arms | class `Distributor` |
| Printf | print64 and fetch_digit | class `Uart`, methods |

The physical memory of the stage-2 part is one flat array of bytes. Tables, free-list links, guest frames and
the images to load all live in it, so every store is shown not to disturb the rest. Two ghost maps are kept
beside it: the role of each pool frame, and the abstract map from IPA page to frame and attributes. `Valid()`
ties them to the bytes, every method keeps `Valid()` and states the new maps, so the properties hold after any
sequence of calls. `abort` is an outcome of its own, and methods say exactly when they reach it.

In Vgic the events between two hypervisor entries (interrupt lines rising and falling, the guest taking and
deactivating virtual interrupts) follow section 4.1 of ARM IHI 0069; in SpinAlloc every load, store and
exclusive is one step and a store to the lock word clears all monitors (ARM DDI 0487, section B2.9).

## Where the code does not do what one might expect

- `ipa_to_pa` does not test the leaf entry: `Vmm.IpaToPaTrusted` says exactly when its nonzero result is a
  translation, `Vmm.StrayTranslation` makes it go wrong, and `Vmm.CopyToIpa` says where the bytes of a copy go then:
  to frame 0. A root file system can be lost that way without an error (`GuestVm.AllStray`).
- `blk_free` cuts the slice index to 32 bits: `BlkPool.IndexAccepts` says exactly which addresses pass its test, and
  `BlkPool.FarAccepted` that the pool's start plus 4 TiB does.
- `blk_pool_init` accepts pools smaller than the eight slices `blk_alloc` hands out: `BlkPool.SafeSizes` says exactly
  which sizes are safe.
- The lock-side re-entry check can fire on a core that does not hold the lock. `SpinAlloc.SpuriousAbort`
  builds a run from boot that does; `SpinAlloc.LockAbortIsStale` says exactly when it happens: the caller was the last
  core to get the lock.
- `alloc_one_page` returns NULL with the lock held. It returns NULL exactly when the list is empty
  (`SpinAlloc.NullExactly`), a run from boot gets there whatever the pool's size (`SpinAlloc.NullReached`), and from
  then on the lock is never free again and no page moves (`SpinAlloc.NullKeepsLock`).
- `el1_irq_proc` does not filter special interrupt ids: `Vgic.IrqProcForwards` shows the forwarding invariant
  survives exactly for real ids with split EOI mode, `Vgic.SpecialIdForwarded` that id 1023 breaks it on a new core.
- A write to IPRIORITYR or ITARGETSR rounds its offset down to a multiple of 4, a read does not:
  `VgicRegs.AlignedReadsBack` says exactly which offsets read back.
- `fetch_digit` overflows its `int` before the number itself would: the last readable magnitude is 2147483599
  (`Printf.FieldAt`, `Printf.PrintedReadsBack`).
- `create_mmio_trap` tests only the first page of its range: `Vmmio.CreateMmioTrap` says exactly when the range
  ends up untranslated, `Vmmio.TrapMissed` sets a trap with a page still mapped, `Vmmio.BlockTrapped` says that a range inside one 2 MiB block always does. Creating a guest therefore
  fails if its RAM meets the GIC's block without covering the GIC (`CreateVm.CreateGuestVm`).
- vmm.h takes descriptor bits 4:2 for an index into MAIR_EL2 and maps guest memory with index 1, "Normal". At stage 2
  the hardware has no such index: bits 5:2 are the memory type itself (ARM DDI 0487, section D5.5), and 1 is Device.
  `Stage2.NormalIndex` says which indices would be Normal; the contracts here speak of the index, as the source does.
- Comments that disagree with the code, which is followed: vmm.h draws a 40-bit address, but PINDEX(0, ipa)
  takes bits 47:39; vmm.c says 36 bits of physical address where VTCR_PS(4) is written.

## Model

| member | source | states |
|---|---|---|
| Stage2.PIndexIsIndex | hypervisor/include/vmm.h:16 | PINDEX at each of the four levels is nine bits of the IPA, from bit 39, 30, 21 and 12 up |
| Stage2.PtePaIsField | hypervisor/include/vmm.h:34 | PTE_PA keeps bits 47:12, the frame number, and clears the rest |
| Stage2.FlagBits | hypervisor/include/vmm.h:27-30 | the PTE_VALID, PTE_TABLE and PTE_AF tests look at bits 0, 1 and 10 |
| Stage2.TableDescWord | hypervisor/src/vmm.c:35 | or-ing a table descriptor together loses and overlaps no field |
| Stage2.PageDescWord | hypervisor/src/vmm.c:66 | the same for a page descriptor with its attributes |
| Stage2.LeafFields | hypervisor/src/vmm.c:66 | a page descriptor decodes back to valid, page, accessed, its frame and its attributes |
| Stage2.AttrBits | hypervisor/include/vmm.h:57-67 | read and write permission are bits 6 and 7 of the descriptor the walk finds, the attribute index bits 4:2 |
| Stage2.MappingAttrs | hypervisor/include/vmm.h:57-67 | the or-ed attributes of guest memory are 0xC4, of the UART 0xC0 |
| Stage2.NormalIndex | hypervisor/include/vmm.h:62-67 | to the hardware an index makes a page Normal memory if and only if it is at least 4 |
| Stage2.WalkIsMap | hypervisor/src/vmm.c:12-43 | refinement: the hardware's walk of flat memory from the root equals the abstract map, for every IPA page |
| Memory.StoreIntoFrame | hypervisor/src/vmm.c:66 | a stored word is one entry of one frame: all other entries and frames are as before |
| Frames.AddTable | hypervisor/src/vmm.c:31-35 | hooking a zeroed frame into an empty entry extends the table graph and changes no translation |
| Frames.SetLeaf | hypervisor/src/vmm.c:66-83 | overwriting one leaf entry changes the map at that page only |
| Frames.PopFree | hypervisor/src/kalloc.c:21-27 | taking the first free frame leaves an acyclic list of the others, whatever is then written to the frame |
| Frames.PushFree | hypervisor/src/kalloc.c:44-45 | linking a frame in front leaves an acyclic list of exactly the free frames |
| Kalloc.Machine.AllocOnePage | hypervisor/src/kalloc.c:18-32 | the first free frame, zeroed and now held; all data, tables and translations intact; 0, with the lock kept, exactly when the list is empty |
| Kalloc.Machine.FreeOnePage | hypervisor/src/kalloc.c:34-48 | the frame joins the front of the list, is zero past its link, and no other frame changes; NULL is ignored |
| Kalloc.Machine.KallocInit | hypervisor/src/kalloc.c:50-54 | the free list is every frame from the image end to PHYEND, in descending order, and the invariant holds |
| Kalloc.Machine.Memset | hypervisor/src/utils.c:13-21 | the range is zero, everything else as before |
| Kalloc.Machine.Memcpy | hypervisor/src/utils.c:24-33 | every byte written, for overlapping ranges too: a destination inside the source repeats the bytes between the starts; everything else as before |
| Vmm.WalkTurn | hypervisor/src/vmm.c:15-39 | one level: follow, build or give up, exactly by whether the next table exists |
| Vmm.BuildTable | hypervisor/src/vmm.c:31-35 | a missing table is built from a free page without changing any translation |
| Vmm.PageWalk | hypervisor/src/vmm.c:12-43 | the entry of the page's leaf table; NULL exactly when there is none and none may be built; new tables only on the page's path; data, translations and old tables intact |
| Vmm.MapPage | hypervisor/src/vmm.c:61-67 | one page is added to the map, or the reason why not |
| Vmm.CreateGuestMapping | hypervisor/src/vmm.c:52-68 | adds exactly the requested pages; completes if and only if the arguments are aligned, no page is in use and the free list covers the tables still lacking |
| Vmm.UnmapPage | hypervisor/src/vmm.c:76-84 | one page leaves the map and its frame becomes the first free one |
| Vmm.PageUnmap | hypervisor/src/vmm.c:70-85 | removes exactly the range and frees exactly its frames; completes if and only if every page of it is mapped |
| Vmm.IpaToPa | hypervisor/src/vmm.c:87-96 | the translation; 0 without a leaf table; the bare offset for an empty leaf entry |
| Vmm.IpaToPaTrusted | hypervisor/src/vmm.c:89-95 | a nonzero result is the hardware's translation if and only if not an unaligned IPA with an empty entry in a present leaf table |
| Vmm.StrayTranslation | hypervisor/src/vmm.c:87-96 | with only the page at 2 MiB mapped, the walk of IPA 0x201008 faults and ipa_to_pa answers 8 |
| Vmm.ChunkCopied | hypervisor/src/vmm.c:105-114 | the part of the copy that falls in one mapped page, with everything copied before it |
| Vmm.LowChunk | hypervisor/src/vmm.c:100-111 | a chunk that goes astray stays in frame 0 and leaves tables, free list and translations intact |
| Vmm.CopyToIpa | hypervisor/src/vmm.c:98-116 | which first bytes, if any, go to low memory; every other byte i lands at the translation of to_ipa + i and nothing else changes; completes if and only if the pages of that rest are mapped |
| Ownership.PoolIsPartitioned | hypervisor/src/kalloc.c:18-54 | free, table, guest and held frames are pairwise disjoint and together the pool |
| Ownership.NoFrameTwice | hypervisor/src/vmm.c:61-84 | a pool frame the walk reaches is reached from one IPA page only, and is not free, held or a table |
| Ownership.OneParent | hypervisor/src/vmm.c:15-38 | two entries naming the same table are the same entry: the graph is a tree |
| Ownership.EntriesDistinct | hypervisor/src/vmm.c:41-42 | distinct pages have distinct entries; a page keeps its entry as tables are added |
| TableCost.PathsCount | hypervisor/src/vmm.c:15-38 | n contiguous pages need one table for each distinct prefix of each level |
| TableCost.PrefixBound | hypervisor/src/vmm.c:15-38 | at most (n-2)/512+2 leaf tables, and the analogous bounds above |
| TableCost.FreshCost | hypervisor/src/vmm.c:31-35 | from a fresh root the number of tables built is exact |
| TableCost.EnoughIsEnough | hypervisor/src/vm.c:59-84 | a free list of the guest's pages plus the table bounds, less than one page in 256 and 12 more, is at least what loading needs |
| GuestVm.FilledPage | hypervisor/src/vm.c:60-71 | a fresh page with the source bytes, then zeros to its end; all other data intact |
| GuestVm.LoadPage | hypervisor/src/vm.c:60-73 | allocate, fill and map one page, which the guest may then read and write with index NORMAL_NC_INDEX; or exactly why it aborts |
| GuestVm.LoadRam | hypervisor/src/vm.c:58-84 | the image loop and the RAM loop together load every RAM page and its part of the image |
| GuestVm.RootfsCopied | hypervisor/src/vm.c:102 | copying the root file system is idempotent: after each copy it is in place in every page then mapped |
| GuestVm.StrayWritten | hypervisor/src/vm.c:102 | the part of it that goes astray lands in frame 0 once and for all, and no pool frame changes |
| GuestVm.AllStray | hypervisor/src/vm.c:102 | a configuration whose root file system goes astray as a whole, and which still counts as loadable |
| GuestVm.LoadDtb | hypervisor/src/vm.c:88-103 | the dtb loop loads every dtb page and leaves the root file system in every mapped page of its range |
| GuestVm.GuestReads | hypervisor/src/vm.c:49-105 | through its own translation and read permissions the guest reads the image, the dtb, the root file system, zeros up to the page ends, and nothing elsewhere |
| GuestVm.WriteThenRead | hypervisor/src/vm.c:49-105 | a guest write to a page it may write is read back there, changes no other IPA's reading, and leaves allocator and tables intact |
| GuestVm.AskedPages | hypervisor/src/vm.c:59-103 | the pages mapped are exactly those with an address in RAM, in the image or in the dtb |
| GuestVm.PromisedIs | hypervisor/src/vm.c:59-103 | what is promised at each IPA, from the addresses and sizes of the configuration alone |
| GuestVm.DoMemoryMapping | hypervisor/src/vm.c:49-105 | returns if and only if the ranges are aligned and disjoint, the root file system, but for the part that goes astray, is mapped at its first copy, and the free list suffices; uses exactly that many frames; every IPA then reads as configured, every mapped page may be read and written as NORMAL_NC_INDEX, and memory outside the pool has changed in the stray bytes only |
| Boot.AllocRoot | hypervisor/src/vm.c:169-174 | a zeroed page is the root of an empty map |
| Boot.DoDeviceMapping | hypervisor/src/vm.c:107-110 | adds the UART page identity-mapped as a device; completes exactly when it was unmapped and its tables can be built |
| Boot.CreateGuestMemory | hypervisor/src/vm.c:168-179 | completes if and only if the configuration is loadable and the free list covers the root, the pages and every table; the guest then reads what memory held before boot, in pages it may read and write, with the UART at its own address, readable, writable and DEVICE_nGnRnE_INDEX |
| Boot.EnoughToBoot | hypervisor/src/vm.c:168-179 | a closed form of the guest's size that always covers that exact number of pages |
| CreateVm.CreateGuestVm | hypervisor/src/vm.c:168-182 | completes if and only if memory does and the guest has no page in the GIC's 2 MiB block or all of the GIC's; then every IPA outside UART and GIC reads as configured, and every GIC IPA faults and reaches its handlers |
| CreateVm.GicTable | hypervisor/src/vm.c:38 | the table the first-page test finds exists exactly when the guest maps a page of that block |
| Vmmio.Vm.Register | hypervisor/src/vmmio.c:58-80 | the region is put in front of the list; an empty one is refused |
| Vmmio.Vm.Handle | hypervisor/src/vmmio.c:12-53 | the list walk finds the first region that contains the IPA and has the handler wanted |
| Vmmio.OwnerCalled | hypervisor/src/vmmio.c:34-50 | with disjoint regions and handlers the unique owner is called, with an offset below its size |
| Vmmio.NobodyCalled | hypervisor/src/vmmio.c:34-52 | an IPA outside every region calls no handler |
| Vmmio.DispatchIs | hypervisor/src/vmmio.c:12-53 | for any list: -1 exactly from an empty one, 0 exactly when no region takes the access, else the first region that does, its handler and the offset into it |
| Vmmio.CreateMmioTrap | hypervisor/src/vm.c:32-47 | exactly when it returns; what is unmapped, freed and registered, with all other memory intact; exactly when the whole range is left untranslated |
| Vmmio.TrapMissed | hypervisor/src/vm.c:32-47 | a trap over pages 511 and 512, set while only page 512 is mapped, returns with page 512 still mapped |
| Vmmio.BlockTrapped | hypervisor/src/vm.c:37-42 | for a range inside one 2 MiB block the first page's test suffices, and earlier traps stay |
| Vmmio.TrapOrTranslate | hypervisor/src/vmmio.c:34-50 | an IPA of a trapped region faults in the walk and reaches that region's handler |
| Vmmio.CreateGicTraps | hypervisor/src/vgicv3.c:451-452 | exactly when both traps are set up; then exactly the pages of GICD and GICR have left the map, their frames are free, guest memory is intact, and both are registered with their handlers |
| Vmmio.GicAddresses | hypervisor/include/layout.h:20-23 | the pages trapped are those of the two address ranges of the GIC |
| Vmmio.BothRemoved | hypervisor/src/vgicv3.c:451-452 | the two unmappings together remove exactly the GIC's pages, whether or not their leaf table exists |
| Xmalloc.ClassFits | hypervisor/include/xmalloc.h:24-36 | BLK_SIZE2TYPE is the smallest class whose blocks hold the request |
| Xmalloc.ClassRange | hypervisor/src/xmalloc.c:74-78 | rounded requests use class 3 and up, and have a class if and only if at most 512 bytes |
| Xmalloc.BlockFits | hypervisor/src/xmalloc.c:102-103 | a block is 8-byte aligned in the pool and lies inside one slice |
| Xmalloc.BlocksApart | hypervisor/src/xmalloc.c:95-103 | distinct blocks do not overlap |
| Xmalloc.PoppedHeap | hypervisor/src/xmalloc.c:82-86 | taking a list's head keeps the heap invariant, and the head is an idle block of that class |
| Xmalloc.SlicedHeap | hypervisor/src/xmalloc.c:95-100 | handing a class the next slice keeps the heap invariant |
| Xmalloc.CutHeap | hypervisor/src/xmalloc.c:102-104 | cutting a block keeps the heap invariant, and the block is new and of that class |
| Xmalloc.FreedHeap | hypervisor/src/xmalloc.c:128-136 | freeing a live block keeps the heap invariant |
| Xmalloc.ClientHeap | hypervisor/src/xmalloc.c:115 | any write inside a live block keeps the heap invariant |
| Xmalloc.PoppedAccounts | hypervisor/src/xmalloc.c:82-111 | the counters stay the list lengths, live blocks and slices when a free block is reused |
| Xmalloc.SlicedAccounts | hypervisor/src/xmalloc.c:95-100 | the same when a slice is taken: class slice counts sum to the pool's |
| Xmalloc.CutAccounts | hypervisor/src/xmalloc.c:102-111 | the same when a block is cut: free plus live is the number of blocks carved |
| Xmalloc.FreedAccounts | hypervisor/src/xmalloc.c:132-136 | the same when a block is freed |
| BlkPool.BlkPool.Init | hypervisor/src/xmalloc.c:13-52 | the error codes for a misaligned region; the zeroed bookkeeping for every size accepted, and the invariant for the configured one; the region is cleared in either case |
| BlkPool.SafeSizes | hypervisor/src/xmalloc.c:88-100 | no block reaches past the pool if and only if the pool has at least 8192 bytes |
| BlkPool.FullSlices | hypervisor/src/xmalloc.c:88-104 | for every k up to 8, taking and cutting slices from an empty pool gives a valid heap with a block at the end of slice k |
| BlkPool.BlkPool.BlkAlloc | hypervisor/src/xmalloc.c:68-116 | NULL exactly above 512 bytes; abort exactly when every class whose blocks hold the request, from 8 bytes up, can give none; else an aligned block of the smallest such class that can, off its list if it has one and new if not |
| BlkPool.BlkPool.FromClass | hypervisor/src/xmalloc.c:79-104 | one class gives its list's head, or else a new block, or is exhausted |
| BlkPool.UnavailableIs | hypervisor/src/xmalloc.c:82-97 | a class can give none if and only if all eight slices are taken and every place in its own is a live block |
| BlkPool.BlkPool.BlkFree | hypervisor/src/xmalloc.c:118-139 | the block goes to the list of the class its slice belongs to, whatever class was asked for; -EPERM exactly when the 32-bit slice index is 8 or more |
| BlkPool.IndexAccepts | hypervisor/src/xmalloc.c:124-127 | that index is below 8 exactly when the distance from the pool's start, modulo 4 TiB, is below 8192 |
| BlkPool.FarAccepted | hypervisor/src/xmalloc.c:124-127 | the pool's start plus 4 TiB has slice index 0, as the pool's first block has |
| BlkPool.BlkPool.ClientWrite | hypervisor/src/xmalloc.c:115 | a client's store in its block keeps the pool valid |
| BlkPool.PoolPartition | hypervisor/src/xmalloc.c:78-105 | every byte of the pool is in exactly one block, live or on its class's list, or in uncarved space |
| SpinAlloc.BootedIsInit | hypervisor/src/kalloc.c:50-54 | the list kalloc_init builds, with every core idle, is an initial state |
| SpinAlloc.ExecuteInv | hypervisor/src/kalloc.c:20-47 | every instruction of every core keeps the invariant of lock, owners and list |
| SpinAlloc.RunInv | hypervisor/src/spinlock.c:4-45 | so does every interleaving, of any length, of any number of cores |
| SpinAlloc.MutualExclusion | hypervisor/src/spinlock.c:10-43 | at most one core is between its STXR and its releasing store, and the unlock-side check passes for it |
| SpinAlloc.UnlockCheck | hypervisor/src/spinlock.c:36-43 | in any state the unlock aborts exactly if the lock is free or its number is not the caller's |
| SpinAlloc.PagesPartitioned | hypervisor/src/kalloc.c:20-47 | in every interleaving a page is on the list once, zero past its link, or owned by one core, and the list is acyclic |
| SpinAlloc.WritesOwnPages | hypervisor/src/kalloc.c:30-40 | no step, zeroing outside the lock included, writes a page its core does not own or takes another core's page |
| SpinAlloc.ReturnsZeroedPage | hypervisor/src/kalloc.c:30-31 | the page returned belongs to the core and is zero throughout |
| SpinAlloc.NeverPruned | hypervisor/src/kalloc.c:20-47 | no reachable instruction is disabled: the runs are every interleaving |
| SpinAlloc.NullExactly | hypervisor/src/kalloc.c:23-25 | NULL is returned if and only if the list is empty |
| SpinAlloc.NullKeepsLock | hypervisor/src/kalloc.c:23-25 | however a run goes on after NULL, the core keeps the lock, no other core gets it, and the list never changes again |
| SpinAlloc.NullReached | hypervisor/src/kalloc.c:18-25 | from boot, for every pool, a run in which a core uses up the pages and gets NULL with the lock |
| SpinAlloc.TakesAndFrees | hypervisor/src/kalloc.c:18-48 | from boot, a run in which a core takes a page and frees it, after which list and owners are as at first |
| SpinAlloc.SecondCallAborts | hypervisor/src/spinlock.c:6-8 | such a core aborts when it calls again |
| SpinAlloc.LockAbortIsStale | hypervisor/include/spinlock.h:13-20 | over every run the lock-side check fires exactly when the caller was the last core to get the lock, and then no other holder has stored its number yet |
| SpinAlloc.CoreidIsLastUser | hypervisor/src/spinlock.c:4-45 | over every run coreid is the number of the last core that got the lock and stored it, or what boot left |
| SpinAlloc.SpuriousAbort | hypervisor/src/spinlock.c:6-28 | a run from boot in which it fires although the core does not hold the lock |
| Linear.StepDecides | hypervisor/src/kalloc.c:20-47 | owners and list change only where a call takes effect: at a store to pages.freelist |
| Linear.Linearizes | hypervisor/src/kalloc.c:18-48 | in every interleaving the calls, in the order they take effect, are a sequential history: first free page out, freed page in front, NULL from an empty list and last; and it leaves the owners and the list the run leaves |
| Linear.NothingAfterNull | hypervisor/src/kalloc.c:23-25 | no call takes effect after a NULL |
| Linear.EveryCallAnswered | hypervisor/src/kalloc.c:18-48 | over every run, a core back outside the allocator, or given NULL, has had each call answered once and in order: an alloc with a page or NULL, a free with that page linked |
| Linear.OneFree | hypervisor/src/kalloc.c:34-48 | between one call of free_one_page and its return the core puts exactly that page on the list, and takes none |
| Linear.OneAlloc | hypervisor/src/kalloc.c:18-32 | between one call of alloc_one_page and its return the core takes exactly one page, which is then its own and zero throughout |
| Linear.AllocReturns | hypervisor/src/kalloc.c:27-31 | the page about to be returned is the one the core took last |
| Linear.Agrees | hypervisor/src/kalloc.c:18-48 | alloc_one_page and free_one_page called one after another with that history return the same pages and end with the same owners and list |
| Vgic.CreateLrFields | hypervisor/src/gicv3.c:84-92 | the register decodes to pending, HW-linked, Group 1, pirq below 1024 and virq |
| Vgic.InactiveIsZeroState | hypervisor/include/gicv3.h:142 | LR_IS_INACTIVE is a zero state field |
| Vgic.EnteredExact | hypervisor/src/vgicv3.c:59-70 | after virq_enter the bitmap is exactly the set of live registers |
| Vgic.IrqProcRegister | hypervisor/src/vgicv3.c:85-97 | abort exactly when all implemented registers are live; else the register written was free |
| Vgic.IrqProcForwards | hypervisor/src/el1_sync.c:171-187 | forwarding survives an interrupt entry if and only if the id is a real one and EOI mode is split |
| Vgic.SpecialIdForwarded | hypervisor/src/el1_sync.c:171-187 | from every first state the entry with id 1023 completes and leaves a register that presents 1023 to the guest |
| Vgic.IrqTaken | hypervisor/src/el1_sync.c:176-186 | the interrupt is active and in a list register afterwards, and live registers are untouched |
| Vgic.EventForwards | hypervisor/src/el1_sync.c:171-187 | every event keeps forwarding; only an interrupt entry with all registers live stops the machine |
| Vgic.AlwaysPossible | hypervisor/src/vgicv3.c:85-97 | the guest can always take a pending register and finish an active one, and a live register is one or the other |
| Vgic.CanFinish | hypervisor/src/gicv3.c:357-360 | from every forwarding state an active interrupt can be brought to its one deactivation |
| Vgic.StaysActive | hypervisor/src/gicv3.c:357-360 | an interrupt acknowledged for the guest stays active until the guest deactivates it |
| Vgic.EventExact | hypervisor/src/el1_sync.c:171-187 | what each event does to each interrupt: pending, active, and the three counts |
| Vgic.AcksNeedSignals | hypervisor/src/el1_sync.c:171-187 | over all runs an interrupt is acknowledged at most once for each time it is raised or found still asserted |
| Vgic.RunForwards | hypervisor/src/el1_sync.c:171-187 | forwarding over all runs |
| Vgic.NoneLostOrTwice | hypervisor/src/vgicv3.c:85-97 | over all runs: active means in exactly one live register, and each acknowledge is taken once and deactivated once, one in flight at most |
| VgicCpu.Cpu.VirqEnter | hypervisor/src/vgicv3.c:59-70 | the bit loop computes the value machine's virq_enter |
| VgicCpu.Cpu.AllocLr | hypervisor/src/vgicv3.c:73-82 | the first clear bit is set and returned; -1 and no change if there is none |
| VgicCpu.Cpu.VirqInject | hypervisor/src/vgicv3.c:85-97 | for any pirq and virq, the first unused register presents virq as pending and linked to pirq, and nothing else changes; aborts exactly when all are used; equal to the value machine's injection |
| VgicCpu.Cpu.GuestEoi | hypervisor/src/gicv3.c:357-360 | with split EOI mode no interrupt changes state; without it the one named stops being active and no other changes |
| VgicCpu.Cpu.El1IrqProc | hypervisor/src/el1_sync.c:171-187 | synchronise, acknowledge, drop priority, inject, in that order |
| VgicCpu.Cpu.TakeGuestIrq | hypervisor/src/el1_sync.c:171-187 | on a forwarding core the interrupt gets a free register, live ones are kept, and forwarding holds again |
| VgicRegs.WriteThenRead | hypervisor/src/vgicv3.c:277-294 | four fields written from a value read back as its low 32 bits |
| VgicRegs.AlignedReadsBack | hypervisor/src/vgicv3.c:179-199 | all values read back at an offset if and only if it is 4-aligned |
| VgicRegs.Distributor.Read | hypervisor/src/vgicv3.c:179-199 | the four bytes are the priorities of the interrupts from offset - 0x400 on, or their affinities from offset - 0x800 on |
| VgicRegs.Distributor.Write | hypervisor/src/vgicv3.c:277-294 | the same four interrupts, with the offset rounded down, take the four low bytes as priority or as affinity; no other interrupt and no other field changes |
| VgicRegs.Distributor.RoundTrip | hypervisor/src/vgicv3.c:277-294 | a write then a read returns the low 32 bits and leaves all else alone |
| Printf.NumeralDenotes | hypervisor/src/printf.c:31-33 | the digits evaluate back to the number, without leading zeros |
| Printf.NumeralUnique | hypervisor/src/printf.c:31-33 | no other digit string without leading zeros does |
| Printf.FieldWidth | hypervisor/src/printf.c:43-53 | the output is as wide as the larger of field and text, padded with spaces on one side |
| Printf.FillDigits | hypervisor/src/printf.c:31-33 | the digit loop writes the numeral and stays in the 65-byte buffer |
| Printf.Uart.Print64 | hypervisor/src/printf.c:16-54 | for every s64, the minimum included: blanks, '-' exactly for a negative number printed signed, 0x exactly if asked for, then digits without leading zeros of its magnitude or of its 64 bits, blanks on the other side |
| Printf.FetchDigit | hypervisor/src/printf.c:61-75 | the signed number at a position and where it ends, or overflow exactly above 2147483599 |
| Printf.PrintedReadsBack | hypervisor/src/printf.c:61-75 | fetch_digit returns a printed number if and only if it is not padded on the left and its magnitude is at most 2147483599 |

## Left out

- The locks of xmalloc and vmmio, and waiting for a lock: the sequential parts start from a free page lock and say when it is left held; SpinAlloc has the other cores.
- Weak memory ordering, fairness and liveness of the spinlock: SpinAlloc is sequentially consistent, and a core that got NULL only uses its pages or asks for another page (every caller in the source aborts).
- The padding bytes after the lock byte: LDXR reads 32 bits of which the source declares 8; the rest are taken as zero. Core numbers are taken as distinct.
- VTCR_EL2, TLB invalidation and barriers: the walk is the 48-bit format from level 0, without the 44-bit limit T0SZ sets, and sees stores at once.
- Vmm.CreateGuestMapping: is modelled for mattr in descriptor bits 9:2, which covers both callers, and for pool frames the caller holds.
- Vmm.UnmapPage: requires a frame from the page allocator; the source would put a device page on the free list.
- Vmm.PageUnmap: requires a leaf table for every page, since the source would dereference a NULL entry without one, and frames from the page allocator.
- Vmm.CopyToIpa: takes its source to lie outside the page pool and its destination to hold no device page.
- GuestVm.DoMemoryMapping: takes the images to lie outside the page pool and off the bytes of frame 0 that the stray part of the root file system overwrites, if there is one.
- Vmmio.CreateMmioTrap: needs of its range what PageUnmap needs, when the first page has a leaf table.
- CreateVm.CreateGuestVm: vm_init, the vcpus and the distributor's own fields are not part of it.
- Vmmio.Vm.Register: its record comes from xmalloc, which gives no NULL for 40 bytes but aborts when it is exhausted (BlkAlloc); that abort is not repeated here.
- Vmmio.Vm.Handle: says which handler is called with which offset; register values, handler bodies and what they return are left out.
- VgicRegs.Distributor.Read: only offsets whose four interrupts are SGIs or SPIs; the PPI lookup indexes past its table in the source. The locks are left out, and the two arms' loops are one loop here.
- VgicRegs.Distributor.Write: the same offsets; set_affinity's write to the physical distributor is left out.
- The spis table as allocated: the source asks xmalloc for nspis bytes, a quarter of the nspis entries modelled.
- The other distributor and redistributor registers: ISENABLER reads an uninitialised accumulator and ICENABLER uses the wrong base; the rest are constants, one enable bit, or reads of the hardware.
- BlkPool.BlkPool.Init: the invariant is followed for pools of exactly 8192 bytes, the one size the source configures; SafeSizes covers the others.
- BlkPool.BlkPool.BlkFree: is given the exact base of a live block, or an address it refuses; other addresses that IndexAccepts lets pass, double frees among them, are not modelled.
- Software-generated interrupts in Vgic: an id below 16 is forwarded like any other. The list-register text of ARM IHI 0069 may leave a HW-linked register with such a physical id unpredictable, and the source links them all; that the hardware deactivates it as for other ids is an assumption here.
- Physical interrupts of the hypervisor itself are one event, finished at once; priorities and preemption are not modelled.
- Printf.FetchDigit: signed overflow, undefined in C, is an outcome at which the model stops. vprintf's argument decoding and the UART's registers are left out.
- Integer width: addresses and counters are unbounded integers where the bounds of memory keep them in range; the 64-bit wrap of base + size in the dispatcher and of blk_free's index is written out.
- vpsci.c, vcpu switching, GIC initialisation and the demo guest under guest/: register sequences and assembly without a state to keep.
