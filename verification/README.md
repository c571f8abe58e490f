# SeCloak on OP-TEE: verified models

This project models the parts of the SeCloak kernel where one mistake breaks a property of the whole
system, and proves those properties in Dafny:

- **The heap.** The BGET boundary-tag allocator and the malloc layer on it, over one flat memory:
  signed sizes, back links, the circular free list, splitting, coalescing, and the front and back
  trims of memalign. One invariant (`HeapLayout.HeapInvariant`) says that blocks tile every pool up
  to its sentinel, that a back link is the size of the block before exactly when that block is free,
  that no two free blocks are neighbours, and that the list holds exactly the free blocks, once each.
  Every operation keeps it and states its whole effect on the blocks and on the live buffers.
- **libfdt.** The flat tree format, its reader, the in-place editor, the sequential writer, paths,
  ancestors, and moving and packing of blobs. A blob's bytes stand for a tree with names and values
  (`FdtView.View`); edits on bytes are proved to be edits on that tree, and a tree that is written is
  the tree that is read.
- **The enforcement state machine.** Device classes and chains, counted CSU slots, the emulator's
  region list and the GPIO masks. Which devices are off after settings are applied depends on the
  settings alone, and in every reachable state counters, registers and regions agree with it.
- **The memory map.** Placement of virtual addresses and the two-level tables, against the plain
  list of regions, with the access that the hardware reads from the descriptors.
- **qsort**, the **kernel printf** and the **thread pool**.

Code that changes state is a class or a method on an array with the loops of the source; a
specification function or predicate beside it says what it computes, and lemmas about that function
carry the properties.
Run `dafny verify dfyconfig.toml` to check the whole project.

Modules: `Arith`, `Seqs`, `Options`, `Seal` (shared helpers; `Seal` keeps large facts closed until a
proof opens them); `HeapLayout`, `HeapSteps`, `Bget`, `HeapBases`, `Malloc`, `HeapTotals`, `HeapRuns`,
`Pools`; `FdtFormat`, `FdtBytes`, `FdtTree`, `FdtView`, `FdtScan`, `FdtRead`, `FdtSplice`, `FdtEdits`,
`FdtLookup`, `FdtChange`, `FdtHolding`, `FdtWritten`, `FdtBlob`, `FdtReserve`, `FdtFix`, `FdtWriter`,
`FdtReadBack`, `FdtRoundTrip`, `FdtPath`, `FdtAncestors`, `FdtPack`; `Csu`, `Emulation`, `Devices`,
`DeviceTable`, `Cloak`, `Gpio`; `Descriptors`, `PageTables`, `Placement`; `Qsort`; `Printf`,
`PrintfText`, `PrintfFormat`, `PrintfWritten`; `Threads`.

## Where the code does not do what it seems to promise

- Mapping by pages takes the 1 MiB part of the physical address and the page number of the virtual
  one (core/arch/arm/mm/core_mmu_v7.c:585-587). It therefore keeps addresses at their distance from
  the region's start if and only if the two addresses agree modulo 1 MiB
  (`PageTables.PagedIsLinear`). Placement gives every region that is not flat mapped a virtual
  address on a 1 MiB boundary (core/arch/arm/mm/core_mmu.c:576-577, 593-594), so such a region of
  small pages is mapped at its own addresses if and only if its physical address is on such a
  boundary too (`Placement.PlacedIsLinear`); `PageTables.MisplacedRegion` is one that is not. The
  tables are therefore proved against what the code maps (`PageTables.Lookup` with
  `PageTables.Target`), which is the region list's own address for congruent regions.
- Adding a subnode takes the parent offset -1 for the answer "no such subnode" and goes on with it
  (core/lib/libfdt/fdt_rw.c:346-351, core/lib/libfdt/fdt_ro.c:138-149), because the search hands a
  negative offset back as its result. A call with an offset that fails the check changes nothing if
  and only if the offset is not -1 or there is no room; at -1, with room, an empty node is written
  eight bytes before the structure block, into the last entry of the reserve map, and all behind it
  is shifted (`FdtBlob.Blob.AddSubnode`, `FdtBlob.AheadIsSeen`).
- The sequential writer's test for room (core/lib/libfdt/fdt_sw.c:215) is an unsigned sum, since the
  total size is (core/lib/libfdt/include/libfdt.h:173). A name that is longer than all the buffer in
  front of the strings table passes it, and is copied over the start of the buffer and its header. This
  happens if and only if the name is not in the table and is that long (`FdtWriter.OverrunIs`); never
  in a buffer that could hold all names (`FdtRoundTrip.NoOverrun`). `FdtRoundTrip.LongName` is an input.
- The size of a property is a 32-bit sum too (core/lib/libfdt/fdt.c:123). At a property with the length
  word 0xFFFFFFF4 reading the next tag leads nowhere (`FdtFormat.TagAt`), and the loops over tags never
  end (`FdtRead.EndlessIsForever`, `FdtRead.StalledBlock`); where no property has that word they all do
  (`FdtRead.WalksEnd`, `FdtPack.SizeIsFound`).
- Writing the path of an offset at or behind the end of a tree reads in front of the caller's buffer,
  and of no other offset (`FdtPath.GetPath`): the walk leaves the tree with depth -1, and the names are
  dropped down to that depth (core/lib/libfdt/fdt_ro.c:371-376). The walk up takes the end of the tree
  for a node of depth -1 in the same way (`FdtAncestors.SupernodeAtDepth`).
- The end of an emulated region counts as inside it (core/arch/arm/secloak/emulation.c:56), so one
  byte behind a denied device is denied too (`Emulation.EndIsDenied`). Denied and inside are the same
  if and only if each such end lies inside another denied region (`Emulation.DeniedIsInside`). A
  region whose end wraps 32 bits covers nothing (`Emulation.CoversExactly`).
- The hardware has no access right for memory that the user may only read and the core may write. A
  region with these attributes is mapped so that the user may write it (core/arch/arm/mm/core_mmu_v7.c:398-402),
  and only such a region (`Descriptors.UserWrites`). Pages have no bit against execution by the core
  alone, so a page that the user may execute the core may execute too (`Descriptors.CoreExecutes`).
- The wrap test of calloc (lib/libutils/isoc/bget_malloc.c:318) compares the 32-bit size with both
  factors. Of the requests that fit it refuses exactly those with a zero factor whose other factor is
  more than the extra bytes (`Malloc.FittingCalloc`, `Malloc.CallocOfNothing`). A request that does
  not fit can pass it (`Malloc.WrapIsMissed`); the size given is the size asked for if and only if
  that fits 32 bits (`Malloc.ProductFits`).

## Model

| member | source | states |
|---|---|---|
| `Bget.Heap.Search` | lib/libutils/isoc/bget.c:607-692 | returns the first block of the free list that is big enough, and the list head only when no free block anywhere is |
| `Bget.Heap.TakeTail` | lib/libutils/isoc/bget.c:640-660 | the split branch: the tail of the block becomes a used block of exactly the size, the rest stays free and listed, the heap invariant holds, and every live buffer keeps its bytes |
| `Bget.Heap.TakeWhole` | lib/libutils/isoc/bget.c:661-689 | the other branch: the whole block becomes used and leaves the list, with the invariant and every live buffer kept |
| `Bget.Heap.Bget` | lib/libutils/isoc/bget.c:573-753 | first fit over the free list: the new block sequence, free list and address are exactly what the chosen block gives, and the block is no more than one quantum and one smallest block larger than asked for; null exactly when no free block could hold the request and a header, and then nothing changes |
| `Bget.NeedIsLeast` | lib/libutils/isoc/bget.c:588-600 | the size searched for is the least size a block with room for the request and a header can have |
| `Bget.TakenIs` | lib/libutils/isoc/bget.c:640-690 | a free block is given whole if and only if at most sixteen bytes would be left; otherwise exactly its last bytes are given and the rest stays free |
| `Bget.Heap.Brel` | lib/libutils/isoc/bget.c:824-968 | releasing any live buffer, in all four coalescing cases, gives the block sequence in which it is merged with its free neighbours; the invariant holds and all other live buffers keep their bytes |
| `Bget.Heap.CreateFreeBlock` | lib/libutils/isoc/bget_malloc.c:355-376 | writes the free header and the next block's back link and appends the block to the circular list, touching nothing else |
| `Bget.Heap.BrelBefore` | lib/libutils/isoc/bget_malloc.c:378-426 | the front of a used block joins a free block before it or becomes a free block; the rest stays used at the new address; invariant and other buffers kept |
| `Bget.Heap.BrelAfter` | lib/libutils/isoc/bget_malloc.c:428-499 | what a used block does not need at its end joins a free block behind it or becomes one, unless it is too small to be a block; invariant and other buffers kept |
| `Bget.Heap.Bpool` | lib/libutils/isoc/bget.c:989-1052 | a new pool is one free block and an end sentinel beside the old blocks; invariant and all live buffers kept |
| `HeapLayout.RecutKeepsShape` | lib/libutils/isoc/bget.c:573-1052 | exchanging a run of blocks for another of the same extent keeps the tiling, the sentinels, and no two free neighbours |
| `HeapLayout.Rebuild` | lib/libutils/isoc/bget.c:573-1052 | the invariant's master lemma: a memory that writes only inside a run, its next back link and the list links, with the new headers in place, is a heap again and keeps every live buffer outside the run |
| `HeapSteps.SplitIsHeap` | lib/libutils/isoc/bget.c:640-660 | the three words that the split branch stores give the heap with the block cut in two |
| `HeapSteps.TakenIsHeap` | lib/libutils/isoc/bget.c:661-689 | unlinking a block and flipping its size's sign gives the heap with the block used |
| `HeapSteps.ReleasedIsHeap` | lib/libutils/isoc/bget.c:824-968 | the joined size in the joined header and in the next back link gives the heap with the released block merged |
| `HeapSteps.FrontCutIsHeap` | lib/libutils/isoc/bget_malloc.c:378-426 | the words stored by the front trim give the heap with the front free |
| `HeapSteps.BackCutIsHeap` | lib/libutils/isoc/bget_malloc.c:428-499 | the words stored by the back trim give the heap with the back free |
| `HeapSteps.PoolIsHeap` | lib/libutils/isoc/bget.c:989-1052 | the words stored for a new pool give the heap with the pool added |
| `Malloc.Get` | lib/libutils/isoc/bget.c:573-753 | as a client sees it: null exactly when no free block could hold the request and a header, and then nothing changes; otherwise one new live buffer of at least the size and at most a smallest block more than its rounding, and no other buffer changed |
| `Malloc.GetZeroed` | lib/libutils/isoc/bget.c:759-782 | the same, and every byte of the new buffer is zero |
| `Malloc.GetAgain` | lib/libutils/isoc/bget.c:789-820 | null exactly when no free block can serve the new size, and then the old buffer stays; otherwise the old buffer is replaced by one of the new size that starts with the first min(old, new) bytes |
| `Malloc.RawMalloc` | lib/libutils/isoc/bget_malloc.c:272-299 | header, footer and payload fit the new buffer; null if and only if the sum wraps 32 bits or no free block serves, and then nothing changes |
| `Malloc.RawFree` | lib/libutils/isoc/bget_malloc.c:301-307 | the buffer leaves the map of live buffers, all others stay with their bytes; null is ignored |
| `Malloc.RawCalloc` | lib/libutils/isoc/bget_malloc.c:309-330 | for every count and size: null if and only if the source's test on the 32-bit product refuses or no free block serves; otherwise a zeroed buffer of the size that was computed |
| `Malloc.ProductFits` | lib/libutils/isoc/bget_malloc.c:309-330 | the size computed is the true sum of product and extras if and only if that sum fits 32 bits |
| `Malloc.FittingCalloc` | lib/libutils/isoc/bget_malloc.c:317-319 | of the requests that fit, the wrap test refuses exactly those with a zero factor whose other factor is more than the extra bytes |
| `Malloc.CallocOfNothing` | lib/libutils/isoc/bget_malloc.c:317-319 | so it refuses one member of size zero without extras |
| `Malloc.WrapIsMissed` | lib/libutils/isoc/bget_malloc.c:317-319 | and it passes a request that does not fit: five members of 1 GiB are given 1 GiB |
| `Malloc.RawRealloc` | lib/libutils/isoc/bget_malloc.c:332-353 | null if and only if the sum wraps or no free block serves, and then nothing changes; a null pointer allocates, another gets a buffer with its first min(old, new) bytes |
| `Malloc.AlignedStartFacts` | lib/libutils/isoc/bget_malloc.c:530-548 | the start computed for an alignment is aligned behind the header and leaves room for a free block before it and for the request after it (the bounds asserted in the source) |
| `Malloc.TrimFront` | lib/libutils/isoc/bget_malloc.c:530-555 | the front part rejoins the heap and the buffer starts at the aligned address with the room it needs |
| `Malloc.TrimBack` | lib/libutils/isoc/bget_malloc.c:557-562 | the back part rejoins the heap and the buffer keeps the room it needs, and less than a smallest block more |
| `Bget.TrimmedIs` | lib/libutils/isoc/bget_malloc.c:428-499 | the back of a block is given back exactly when it is sixteen bytes or more, and less than the needed size and sixteen bytes are kept |
| `Malloc.RawMemalign` | lib/libutils/isoc/bget_malloc.c:501-566 | for every alignment below 2^32: null if and only if it is no power of two, the sum the branch asks for wraps, or no free block serves; otherwise a buffer whose address behind the header is aligned and that has room for header, payload and footer and at most a smallest block more than their rounding, with all other buffers as they were |
| `Malloc.RefusalMeans` | lib/libutils/isoc/bget_malloc.c:501-548 | what it takes for memalign to find nothing, in bytes: no free block for the request and eight bytes, with the alignment and sixteen bytes on top where the alignment is more than eight |
| `Malloc.PowersOfTwo` | lib/libutils/isoc/bget_malloc.c:514-520 | the alignments accepted are the powers of two |
| `Malloc.LiveBuffersApart` | lib/libutils/isoc/bget.c:573-968 | in every heap two live buffers are disjoint, headers included |
| `Malloc.KeptPayload` | lib/libutils/isoc/bget.c:573-968 | a buffer that an operation does not name has the same place, size and bytes afterwards |
| `Malloc.LiveMapStep` | lib/libutils/isoc/bget.c:573-968 | the map from live buffers to contents changes exactly at the blocks lost and gained |
| `Malloc.PayloadWrite` | lib/libutils/isoc/bget.c:573-968 | a client's write inside its own buffer keeps the heap invariant and every other buffer |
| `HeapTotals.Conservation` | lib/libutils/isoc/bget.c:824-968 | allocated, free and sentinel bytes add up to the pools' bytes in every heap |
| `HeapTotals.IdlePools` | lib/libutils/isoc/bget.c:824-968 | when nothing is live, every pool is one free block and its sentinel |
| `HeapTotals.ListBytesIsFreeBytes` | lib/libutils/isoc/bget.c:1058-1077 | the sum over the free list is the sum over the free blocks, whatever the list's order |
| `HeapTotals.Bstats` | lib/libutils/isoc/bget.c:1058-1077 | the totals reported are the allocated bytes, the free bytes and the largest free block, and they account for the pools |
| `HeapTotals.CountFree` | lib/libutils/isoc/bget.c:1058-1077 | the loop over the circular list sums every free block of the heap and keeps the largest |
| `HeapRuns.Run` | lib/libutils/isoc/bget_malloc.c:272-566 | any sequence of malloc, calloc, realloc, memalign, free, client writes and new pools, failed calls included, carried out on a heap, is a run: every state has the heap invariant and the client's buffers in place, and each follows from the one before by the operation |
| `HeapRuns.RunBuffers` | lib/libutils/isoc/bget_malloc.c:272-566 | in every state of every run each buffer of the client is live, at least as large as was asked for, and inside one pool |
| `HeapRuns.RunBuffersApart` | lib/libutils/isoc/bget_malloc.c:272-566 | in every state of every run no two of the client's buffers overlap |
| `HeapRuns.RunKeepsBytes` | lib/libutils/isoc/bget_malloc.c:272-566 | between any two states of a run, a buffer that no operation between them names has the same place and the same bytes, whatever else was allocated, moved, written, released or added |
| `HeapRuns.RunResizes` | lib/libutils/isoc/bget_malloc.c:332-353 | at every realloc of a run that is not refused, the buffer starts with the bytes it had, as far as both go |
| `Pools.PoolIterator.constructor` | lib/libutils/isoc/bget_malloc.c:206-215 | the iterator starts at the first block of the first pool |
| `Pools.PoolIterator.Next` | lib/libutils/isoc/bget_malloc.c:217-265 | returns the next used block in pool order, passing none, and ends only when none is left |
| `Pools.IsWithinAlloced` | lib/libutils/isoc/bget_malloc.c:886-919 | true exactly for a range that does not wrap and lies inside the payload of one live buffer |
| `Pools.AddPool` | lib/libutils/isoc/bget_malloc.c:850-884 | the aligned part of the memory becomes a pool, the table holds start and length of exactly the heap's pools, and every live buffer but the table keeps its place and contents; too little memory changes nothing |
| `Pools.GrowTable` | lib/libutils/isoc/bget_malloc.c:873-882 | the pool table, itself a heap buffer, is reallocated with the start and length of every pool, and every other live buffer keeps its place and contents |
| `Qsort.Med3` | lib/libutils/isoc/qsort.c:67-72 | returns the index of an element that is a median of the three |
| `Qsort.Sink` | lib/libutils/isoc/qsort.c:83-85 | one insertion extends the sorted range by a permutation of it |
| `Qsort.InsertionSort` | lib/libutils/isoc/qsort.c:81-87 | sorts the range by a permutation of it |
| `Qsort.ChoosePivot` | lib/libutils/isoc/qsort.c:88-99 | the pivot is the middle of seven, the median of first, middle and last up to forty, and the median of three medians of three beyond |
| `Qsort.ScanRight` | lib/libutils/isoc/qsort.c:105-112 | keeps the partition invariant (equal, smaller, unseen, larger, equal) and stops at a larger element |
| `Qsort.ScanLeft` | lib/libutils/isoc/qsort.c:113-120 | keeps the partition invariant and stops at a smaller element |
| `Qsort.Partition` | lib/libutils/isoc/qsort.c:100-127 | ends with the range cut into equal, smaller, larger, equal, by a permutation of it |
| `Qsort.VecSwap` | lib/libutils/isoc/qsort.c:51-65 | exchanges two disjoint runs element by element and is a permutation |
| `Qsort.Gathered` | lib/libutils/isoc/qsort.c:135-139 | a partition and the two block swaps leave smaller, equal, larger, with the counts the source recurses on |
| `Qsort.Gather` | lib/libutils/isoc/qsort.c:135-139 | the two block swaps do that in place |
| `Qsort.Round` | lib/libutils/isoc/qsort.c:88-139 | one round either leaves smaller, equal, larger, or, when nothing was swapped, the range sorted |
| `Qsort.SortLeft` | lib/libutils/isoc/qsort.c:79-147 | after the recursive half the left part is in place and below everything to its right |
| `Qsort.SortSmaller` | lib/libutils/isoc/qsort.c:140-141 | the recursive call on the smaller elements of a round puts everything but the larger ones in place |
| `Qsort.Sort` | lib/libutils/isoc/qsort.c:74-149 | the recursion and the iterated half together sort any range by a permutation of it, and terminate |
| `Qsort.Qsort` | lib/libutils/isoc/qsort.c:74-149 | for every total preorder and every length the array ends up sorted and with the same elements |
| `Csu.EvenWrite` | core/drivers/imx_csu.c:52-62 | writing an even slot's byte leaves the odd slot's byte and the reserved bits of the register |
| `Csu.OddWrite` | core/drivers/imx_csu.c:52-62 | writing an odd slot's byte leaves the even slot's byte and the reserved bits of the register |
| `Csu.Unit.constructor` | core/drivers/imx_csu.c:14-37 | from any register contents, every slot is open with count zero and the reserved bits stay |
| `Csu.Unit.SetCsl` | core/drivers/imx_csu.c:39-63 | one count moves by one, the register is written only for the first protection and the last release, no other field changes, and bits 0-7 (even slots) or 16-23 (odd slots) of the slot's register are 0x33 iff the count is positive and 0xFF otherwise |
| `Csu.Unit.WriteSlot` | core/drivers/imx_csu.c:52-62 | a slot's byte takes the level and no other bit of any register changes |
| `Csu.Unit.IsProtected` | core/drivers/imx_csu.c:65-69 | the count test agrees with the register: the slot's eight bits are 0x33 when it is protected and 0xFF when it is not |
| `Emulation.DeniedIsRefused` | core/arch/arm/secloak/emulation.c:51-62 | one deny-all region that covers an address refuses the access, whatever the other regions do |
| `Emulation.UncoveredIsAllowed` | core/arch/arm/secloak/emulation.c:51-62 | an address that no region covers is allowed unchanged |
| `Emulation.CoversExactly` | core/arch/arm/secloak/emulation.c:51-62 | a region that does not wrap 32 bits covers its addresses and the one behind them; one that wraps covers none |
| `Emulation.EndIsDenied` | core/arch/arm/secloak/emulation.c:51-62 | the address behind a deny-all region is denied, though it is not inside |
| `Emulation.DeniedIsInside` | core/arch/arm/secloak/emulation.c:51-62 | the denied addresses are those inside deny-all regions if and only if the end of each such region is inside another |
| `Emulation.HeadIsFirst` | core/arch/arm/secloak/emulation.c:26-62 | a region added at the head judges first, and the others get the value it leaves |
| `Emulation.RemoveUndoesAdd` | core/arch/arm/secloak/emulation.c:26-49 | removing the region that was added last gives the list back, other equal regions included |
| `Emulation.Emulator.RemoveRegion` | core/arch/arm/secloak/emulation.c:40-49 | exactly one equal region leaves the list, if there is one |
| `Emulation.Emulator.CheckAccess` | core/arch/arm/secloak/emulation.c:51-62 | the loop asks every covering region in order, each with the value that the last one left, the region's end included |
| `Emulation.Emulator.HandleLoad` | core/arch/arm/secloak/emulation.c:101-119 | a load from a denied address yields 0; any other yields what the regions make of the loaded bytes, extended |
| `Emulation.Emulator.HandleStore` | core/arch/arm/secloak/emulation.c:121-125 | a store to a denied address writes nothing; any other writes the low bytes, as many as the access has, of the checked value, and an access of another width writes nothing |
| `Emulation.ExtendKeeps` | core/arch/arm/secloak/emulation.c:101-119 | extending a loaded byte, half-word or word keeps the bytes that were loaded |
| `Emulation.ExtendByte` | core/arch/arm/secloak/emulation.c:101-119 | bits 8-31 of a loaded byte all equal bit 7 for a signed load and are zero for an unsigned one |
| `Emulation.ExtendHalf` | core/arch/arm/secloak/emulation.c:101-119 | bits 16-31 of a loaded half-word, likewise |
| `DeviceTable.Hash` | core/drivers/dt.c:15-17 | the bucket is the top seven bits of the 32-bit product with 0x61C88647 |
| `DeviceTable.FlatCounts` | core/drivers/dt.c:45-71 | the buckets together hold every device whose bucket exists exactly once |
| `DeviceTable.Table.constructor` | core/drivers/dt.c:20-30 | an empty table |
| `DeviceTable.Table.Insert` | core/drivers/dt.c:68-71 | the new device joins its bucket and every other stays |
| `DeviceTable.Table.Lookup` | core/drivers/dt.c:32-43 | finds a device of the node exactly when there is one |
| `DeviceTable.Table.Next` | core/drivers/dt.c:45-57 | each call moves one device further in the order of the buckets, and ends only after the last |
| `DeviceTable.Table.OrderIsExact` | core/drivers/dt.c:45-66 | that order visits every inserted device exactly once |
| `Devices.ChainIsClosed` | core/drivers/dt.c:440-459 | the chain of a device on a chain is part of that chain |
| `Devices.ChainIsClimbed` | core/drivers/dt.c:440-459 | a device is on the chain of another exactly when it is that device or a parent some steps up with none below it on the way that can be protected |
| `Devices.GuardIsOnChain` | core/drivers/dt.c:440-459 | the nearest protectable ancestor-or-self is the one protectable device on the chain |
| `Devices.EnableVisit` | core/drivers/dt.c:440-459 | enabling one more device of a class takes its chain, and only that, out of the disabled devices |
| `Devices.DisableVisit` | core/drivers/dt.c:440-459 | skipping a device that is already off disables the same devices as walking its chain would |
| `Devices.EnableOneClass` | core/arch/arm/secloak/entry.c:264-266 | after a class is enabled, every device still off is explained by another class |
| `Devices.EnableAllEnables` | core/arch/arm/secloak/entry.c:264-266 | so enabling all classes in turn leaves no device off |
| `Devices.DisableKeepsClosed` | core/arch/arm/secloak/entry.c:267-271 | a union of chains contains the chain of each of its devices |
| `Devices.ChainsAreExplained` | core/arch/arm/secloak/entry.c:264-271 | what applying settings disables is explained by the classes, so that the next call can undo it |
| `Cloak.ProtectSlots` | core/drivers/dt.c:417-419 | the counters gain the device's slots, by multiplicity |
| `Cloak.ReleaseSlots` | core/drivers/dt.c:405-407 | the counters lose them, by multiplicity |
| `Cloak.AddRegions` | core/drivers/dt.c:413-415 | the region list gains a deny-all region for each resource |
| `Cloak.RemoveRegions` | core/drivers/dt.c:409-411 | the region list loses one for each resource |
| `Cloak.Switch` | core/drivers/dt.c:384-427 | slots and regions of one device are taken and given together |
| `Cloak.Monitor.constructor` | core/drivers/dt.c:26-30 | the invariant holds at the start, with all slots open and no region |
| `Cloak.Monitor.EnableDevice` | core/drivers/dt.c:384-427 | one device is switched and counters, registers and regions still agree with the switches |
| `Cloak.Monitor.EnableChain` | core/drivers/dt.c:449-456 | exactly the chain up to the nearest protectable device is switched |
| `Cloak.Monitor.DeviceHasClass` | core/drivers/dt.c:430-438 | true exactly when the name is among the device's classes |
| `Cloak.Monitor.Visit` | core/drivers/dt.c:443-457 | one device of the loop: another class and an already switched device change nothing |
| `Cloak.Monitor.EnableClass` | core/drivers/dt.c:440-459 | the disabled devices lose the chains of the class's disabled devices, or gain the chains of all its devices |
| `Cloak.Monitor.EnableAllClasses` | core/arch/arm/secloak/entry.c:264-266 | from every reachable state, no device is off afterwards |
| `Cloak.Monitor.DisableDenied` | core/arch/arm/secloak/entry.c:267-271 | then exactly the chains of the denied classes' devices are off |
| `Cloak.Monitor.ApplySettings` | core/arch/arm/secloak/entry.c:251-279 | from every reachable state a confirmed word alone decides which devices are off: exactly those on the chain of a device with a class whose bit of the word (0x40 wifi, 0x100 bluetooth, 0x400 cellular, 0x8000 camera, 0x20000 audio-out, 0x80000 audio-in, 0x1000000 gps, 0x4000000 inertial) is clear; the invariant holds again; a refused word changes nothing |
| `Cloak.AllowsBits` | core/arch/arm/secloak/entry.c:125-130 | the bit of the settings word that allows each class |
| `Cloak.DisabledByBits` | core/arch/arm/secloak/entry.c:222-273 | a device is disabled by a word exactly when it is on the chain of a device with a class whose bit is clear |
| `Cloak.AllBitsAllow` | core/arch/arm/secloak/entry.c:222-273 | with all bits set nothing is disabled |
| `Cloak.MoreBitsAllowMore` | core/arch/arm/secloak/entry.c:222-273 | setting more bits never disables more |
| `Cloak.Monitor.AddDevice` | core/drivers/dt.c:302-342 | a new device joins, enabled, and the invariant holds |
| `Cloak.Monitor.Hold` | core/drivers/imx_fb.c:97-100 | another holder's slot and region are counted beside the devices', and the invariant holds |
| `Cloak.Monitor.Unhold` | core/drivers/imx_fb.c:159-160 | and given back |
| `Cloak.Monitor.OffIsCutOff` | core/drivers/dt.c:384-427 | in every reachable state, a disabled device with slots and memory has all its slots' bytes at 0x33 and all its addresses denied |
| `Cloak.Monitor.DeniedClassIsCutOff` | core/arch/arm/secloak/entry.c:251-273 | after settings with the bit of a class clear, the nearest protectable ancestor of each device of the class has its slots' bytes at 0x33 and its addresses denied |
| `Cloak.Monitor.DeniedIsOff` | core/drivers/dt.c:384-427 | a denied address belongs to a resource of a disabled protectable device |
| `Cloak.Monitor.OthersAreOpen` | core/drivers/imx_csu.c:39-63 | a slot that no disabled device and no other holder needs has the byte 0xFF |
| `Cloak.HistoryDoesNotMatter` | core/arch/arm/secloak/entry.c:251-273 | two systems with the same devices and the same last word have the same switches, counts, register fields and regions, whatever came before |
| `FdtFormat.TagAtToken` | core/lib/libfdt/fdt.c:93-141 | reading where an encoded token stands gives its tag and the offset behind it (structure block of chapter 5 of the Devicetree Specification) |
| `FdtFormat.TokenBytes` | core/lib/libfdt/include/fdt.h:81-103 | the bytes of each token: big-endian tags 1, 2, 3, 4 and 9, a name with its NUL, length and name offset before a value, and padding to four bytes |
| `FdtFormat.WordsAreBigEndian` | core/lib/libfdt/include/libfdt_env.h:71-107 | words are written and read most significant byte first |
| `FdtFormat.TagByBytes` | core/lib/libfdt/fdt.c:93-140 | the first four bytes at an offset decide the tag; missing ones are a truncated block (-8), unknown ones and a name without an end a bad structure (-11) |
| `FdtFormat.TagAt` | core/lib/libfdt/fdt.c:93-141 | the step leads on, except at an aligned property with the length word 0xFFFFFFF4, where it leads nowhere |
| `FdtFormat.PropSizeIs` | core/lib/libfdt/fdt.c:118-125 | the size of a property's token is a 32-bit sum |
| `FdtFormat.NextTag` | core/lib/libfdt/fdt.c:93-141 | the method with its scan for the name's NUL computes the specified step, for every offset, truncated blocks and wrapping length words included |
| `FdtFormat.TokenHeld` | core/lib/libfdt/fdt.c:93-141 | token i of an encoded block stands at the sum of the lengths before it |
| `FdtTree.FlattenReplace` | core/lib/libfdt/fdt_rw.c:123-135 | replacing a node in a tree replaces its tokens and no others |
| `FdtView.ViewReplace` | core/lib/libfdt/fdt_rw.c:274-393 | replacing a node replaces its meaning at the node's place, and nothing else of the meaning |
| `FdtView.OthersIntact` | core/lib/libfdt/fdt_rw.c:274-393 | a node outside the edited subtree keeps its name and properties |
| `FdtView.ReplacedAt` | core/lib/libfdt/fdt_rw.c:274-393 | at the edited place stands the new node |
| `FdtView.PutIsRead` | core/lib/libfdt/fdt_rw.c:274-291 | after a put, the name reads as the new value and every other name as before |
| `FdtView.DropIsRead` | core/lib/libfdt/fdt_rw.c:320-333 | after a drop, with distinct names, the name is not found and every other reads as before |
| `FdtView.ViewGrows` | core/lib/libfdt/fdt_rw.c:150-170 | a longer strings block changes no name in the tree |
| `FdtScan.ScanNode` | core/lib/libfdt/fdt_wip.c:97-105 | walking a node's tokens from its begin tag ends right behind its end tag |
| `FdtScan.SearchFinds` | core/lib/libfdt/fdt_ro.c:132-149 | the depth-counting search finds the first direct subnode that matches, and none deeper |
| `FdtScan.FindPropFinds` | core/lib/libfdt/fdt_ro.c:260-282 | the property search finds the node's first property of the name |
| `FdtScan.FirstPropMeans` | core/lib/libfdt/fdt_ro.c:260-282 | which is the first of that name in the node's meaning |
| `FdtScan.SkipPropsFinds` | core/lib/libfdt/fdt_rw.c:335-374 | skipping properties and no-ops ends before the first subnode or the end tag |
| `FdtRead.CheckNodeOffset` | core/lib/libfdt/fdt.c:143-150 | the offset behind the begin tag, or an error for any offset where none stands |
| `FdtRead.NextNode` | core/lib/libfdt/fdt.c:161-199 | on any bytes and for any offset, negative ones included, from which the walk over the tags ends, the loop ends where that walk does, with its depth or error |
| `FdtRead.EndlessIsForever` | core/lib/libfdt/fdt.c:161-199 | a walk counts as endless exactly when the loop is still going on after any number of turns |
| `FdtRead.WalksEnd` | core/lib/libfdt/fdt.c:161-227 | in a block where no aligned property has the length word 0xFFFFFFF4 the walks of the readers end, from every offset |
| `FdtRead.StalledBlock` | core/lib/libfdt/fdt.c:118-139 | a block of 16 bytes, a node with one such property, on which they do not |
| `FdtRead.NodeAfterNode` | core/lib/libfdt/fdt.c:161-199 | on the tokens of a node that walk stops at the next begin tag with the right depth, or behind the end tag that closes depth zero |
| `FdtRead.NodeEnd` | core/lib/libfdt/fdt_wip.c:97-105 | one past the node's last token |
| `FdtRead.NodenameEq` | core/lib/libfdt/fdt_ro.c:58-76 | a name with a unit address matches in full; one without matches exactly the nodes whose name up to the first at sign it is |
| `FdtScan.MatchIsCalled` | core/lib/libfdt/fdt_ro.c:58-76 | the comparison of bytes is the comparison of base names, or of full names where the name asked for has a unit address |
| `FdtRead.SubnodeOffset` | core/lib/libfdt/fdt_ro.c:132-149 | the offset of the token that the search specification names, or not found |
| `FdtRead.FirstSubnodeOffset` | core/lib/libfdt/fdt.c:201-210 | the first direct subnode's token, or not found; a negative offset means the walk from the start of the block |
| `FdtRead.NextSubnodeOffset` | core/lib/libfdt/fdt.c:212-227 | on any bytes and for any offset from which the walk ends, the node that it first meets at the same depth, or not found |
| `FdtRead.SiblingFound` | core/lib/libfdt/fdt.c:212-227 | on tokens that node is the next direct subnode of the same parent |
| `FdtRead.NextProp` | core/lib/libfdt/fdt_ro.c:108-130 | on any bytes and for any offset, the loop computes the specified search for a property over no-ops |
| `FdtRead.PropTokens` | core/lib/libfdt/fdt_ro.c:108-130 | on tokens that search stops at the first that is no no-op, and answers with its offset exactly when it is a property |
| `FdtRead.FindProperty` | core/lib/libfdt/fdt_ro.c:260-282 | the loop finds the first property token of the name |
| `FdtRead.GetProperty` | core/lib/libfdt/fdt_ro.c:260-282 | the same behind the offset check, with its error |
| `FdtRead.SkipProperties` | core/lib/libfdt/fdt_rw.c:353-358 | on any bytes and for any offset from which it ends, the loop computes the specified walk over properties and no-ops |
| `FdtRead.PastPropTokens` | core/lib/libfdt/fdt_rw.c:353-358 | on tokens that walk ends before the first that is neither |
| `FdtSplice.TokenSplice` | core/lib/libfdt/fdt_rw.c:97-135 | exchanging the bytes of some tokens for those of others exchanges the tokens, however far the rest shifts |
| `FdtSplice.ItemSplice` | core/lib/libfdt/fdt_rw.c:97-135 | the same for items of a node anywhere in the tree |
| `FdtEdits.PutMeans` | core/lib/libfdt/fdt_rw.c:274-291 | exchanging the first item of a name is exchanging the first property of the name in the meaning |
| `FdtEdits.DropMeans` | core/lib/libfdt/fdt_rw.c:320-333 | taking it away, for nothing or for no-ops, drops it from the meaning |
| `FdtEdits.SubnodeMeans` | core/lib/libfdt/fdt_rw.c:335-374 | a node put in after the properties is the first child in the meaning |
| `FdtEdits.RemoveMeans` | core/lib/libfdt/fdt_rw.c:381-393 | taking a subnode away, for nothing or for no-ops, removes that child and no other |
| `FdtEdits.MatchMeans` | core/lib/libfdt/fdt_ro.c:132-149 | a subnode is found exactly when some child's name matches |
| `FdtEdits.OrderedWithItems` | core/lib/libfdt/fdt_rw.c:274-374 | the edits keep properties before subnodes |
| `FdtLookup.LookupProperty` | core/lib/libfdt/fdt_ro.c:260-282 | on a well-formed blob: the offset of the node's first property of the name, or the error |
| `FdtLookup.LookupSubnode` | core/lib/libfdt/fdt_ro.c:132-149 | on a well-formed blob: the offset of the node's first matching subnode, or the error |
| `FdtLookup.LookupEnd` | core/lib/libfdt/fdt_wip.c:97-105 | on a well-formed blob: the end of the node's bytes |
| `FdtLookup.LookupName` | core/lib/libfdt/fdt_ro.c:201-219 | on a well-formed blob: the node's name |
| `FdtLookup.PlaceForNode` | core/lib/libfdt/fdt_rw.c:353-358 | on a well-formed blob the walk over a node's properties ends at the offset of its first subnode, or of its end tag |
| `FdtLookup.FirstSubnode` | core/lib/libfdt/fdt.c:201-210 | on a well-formed blob: the offset of the node's first child, or not found exactly when it has none; the root for a negative offset |
| `FdtLookup.RootIsFirst` | core/lib/libfdt/fdt.c:161-210 | on a well-formed blob the walk from every negative offset, -1 included, stops at once at the root with the depth one more |
| `FdtLookup.EndStands` | core/lib/libfdt/fdt_rw.c:97-393 | a well-formed blob has the END tag right behind the tree, where no node is found |
| `FdtLookup.NextSubnode` | core/lib/libfdt/fdt.c:212-227 | on a well-formed blob: the offset of the next child of the same parent, or not found exactly after the last |
| `FdtChange.EditKeepsTree` | core/lib/libfdt/fdt_rw.c:97-393 | a byte exchange that is an exchange of items leaves a well-formed blob of the edited tree, with the END tag behind it |
| `FdtChange.EditMeans` | core/lib/libfdt/fdt_rw.c:97-393 | whose meaning is the old one with the edited node's properties and children, and nothing else changed |
| `FdtHolding.FindIn` | core/lib/libfdt/fdt_ro.c:260-282 | in terms of the meaning: found, or missing exactly when the node has no such property |
| `FdtHolding.FindSubnode` | core/lib/libfdt/fdt_ro.c:132-149 | in terms of the meaning: found exactly when a child's name matches |
| `FdtHolding.FindEnd` | core/lib/libfdt/fdt_wip.c:97-105 | the extent of a node's bytes |
| `FdtHolding.FindName` | core/lib/libfdt/fdt_ro.c:201-219 | the length of the node's name |
| `FdtBlob.FindString` | core/lib/libfdt/fdt.c:229-239 | the first place where the string stands with its NUL, or none anywhere |
| `FdtBlob.Blob.constructor` | core/lib/libfdt/fdt_rw.c:70-83 | the blocks of a blob whose header passes the check |
| `FdtBlob.Blob.Splice` | core/lib/libfdt/fdt_rw.c:97-108 | the bytes behind the splice move as a block, or no space exactly when they would pass the end |
| `FdtBlob.Blob.SpliceStruct` | core/lib/libfdt/fdt_rw.c:123-135 | only the structure block is spliced, the strings block moves along unchanged |
| `FdtBlob.Blob.ResizeProperty` | core/lib/libfdt/fdt_rw.c:205-221 | the value gets the new length and keeps its first bytes; no space exactly when the padded growth does not fit |
| `FdtBlob.Blob.FindAddString` | core/lib/libfdt/fdt_rw.c:150-170 | an offset where the name stands, the block having grown by at most the name; no space only when it does not fit |
| `FdtBlob.Blob.AppendString` | core/lib/libfdt/fdt_rw.c:137-170 | the appended name stands at the returned offset |
| `FdtBlob.Blob.AddProperty` | core/lib/libfdt/fdt_rw.c:223-249 | a node without the property gets it, first, with everything else intact; the blob stays well formed, END tag included |
| `FdtBlob.Blob.GetProp` | core/lib/libfdt/fdt_ro.c:317-321 | the value of the name in the node's meaning, or not found exactly when there is none |
| `FdtBlob.Blob.SetProp` | core/lib/libfdt/fdt_rw.c:274-291 | the blob's tree is the old tree with that property put, or unchanged with the error; no space only when name, header and value do not fit; the blob stays well formed, END tag included |
| `FdtBlob.Blob.AppendProp` | core/lib/libfdt/fdt_rw.c:293-318 | the blob's tree is the old tree with the bytes appended to that property, or unchanged with the error; the blob stays well formed, END tag included |
| `FdtBlob.Blob.DelProp` | core/lib/libfdt/fdt_rw.c:320-333 | the blob's tree is the old tree without that property; it fails only for a bad offset or a missing property, and then changes nothing; the blob stays well formed, END tag included |
| `FdtBlob.Blob.NopRegion` | core/lib/libfdt/fdt_wip.c:75-81 | the bytes become no-op tags |
| `FdtBlob.Blob.NopProperty` | core/lib/libfdt/fdt_wip.c:83-95 | the tree loses the property as if deleted, with every offset as before; the blob stays well formed, END tag included |
| `FdtBlob.Blob.AddSubnode` | core/lib/libfdt/fdt_rw.c:335-374 | for every parent offset. For a node: the tree gains an empty first child whose offset is returned; exists exactly when a child's name matches, no space exactly when there is none and it does not fit, and then nothing changes. An offset that fails the check is reported and changes nothing, except -1: there an empty node is put in eight bytes before the structure block, and the answer is an error all the same |
| `FdtBlob.Blob.AddBelow` | core/lib/libfdt/fdt_rw.c:335-374 | the part for the other parent offsets; the blob stays well formed, END tag included |
| `FdtBlob.Blob.AddAhead` | core/lib/libfdt/fdt_rw.c:335-374 | the part for -1: truncated is answered exactly when there is room, and the bytes were put in; otherwise no space, and nothing changes |
| `FdtBlob.AheadIsSeen` | core/lib/libfdt/fdt_rw.c:346-374 | the bytes put in are read as part of the reserve map: its last size word is then the begin tag |
| `FdtBlob.Blob.DelNode` | core/lib/libfdt/fdt_rw.c:381-393 | the tree loses exactly that node; for the root, the structure block loses the root's bytes and starts with the END tag; an offset that fails the check changes nothing |
| `FdtBlob.Blob.NopNode` | core/lib/libfdt/fdt_wip.c:107-118 | the same in place, with every offset as before; for the root, no-ops take its place up to the END tag |
| `FdtBlob.Blob.SetName` | core/lib/libfdt/fdt_rw.c:251-272 | the tree has that one node renamed, or is unchanged with the error; the blob stays well formed, END tag included |
| `FdtFix.FixableGrows` | core/lib/libfdt/fdt_sw.c:200-221 | a name's distance from the table's end names the same string after the table grows downward |
| `FdtFix.RawViewGrows` | core/lib/libfdt/fdt_sw.c:200-221 | so a written tree keeps its meaning as the table grows |
| `FdtFix.FlattenFix` | core/lib/libfdt/fdt_sw.c:267-280 | correcting every property token of a tree is correcting the tree |
| `FdtWriter.Writer.constructor` | core/lib/libfdt/fdt_sw.c:88-108 | an empty writer on a fresh buffer of any size that holds the header, before the reserve map |
| `FdtWriter.Writer.AddReserve` | core/lib/libfdt/fdt_sw.c:140-161 | the entry is appended to the map, or the error is no space exactly when it does not fit and bad state exactly when nodes were written, and then nothing changes |
| `FdtWriter.Writer.FinishReserve` | core/lib/libfdt/fdt_sw.c:163-166 | the map is ended by an empty entry, its bytes are those of all entries added, and the structure block starts behind it |
| `FdtWriter.Writer.GrabSpace` | core/lib/libfdt/fdt_sw.c:73-86 | fails exactly when structure and strings would meet |
| `FdtWriter.Writer.BeginNode` | core/lib/libfdt/fdt_sw.c:170-184 | appends a begin token, or fails exactly for lack of room |
| `FdtWriter.Writer.PutTag` | core/lib/libfdt/fdt_sw.c:186-198 | appends an end token, or fails exactly for lack of room |
| `FdtWriter.Writer.FindAddString` | core/lib/libfdt/fdt_sw.c:200-221 | a negative distance at which the name stands, the table having grown at its front only, or no room, or an overrun, each exactly when the ledger of sizes says so; after an overrun the end of the name is over all that was in front of the table |
| `FdtWriter.OverrunIs` | core/lib/libfdt/fdt_sw.c:211-219 | a name runs over the start of the buffer if and only if it is not in the table and is longer, with its NUL, than all the buffer in front of the table |
| `FdtWriter.Writer.AddString` | core/lib/libfdt/fdt_sw.c:211-220 | the part that adds the name, with the unsigned test for room |
| `FdtWriter.Writer.Property` | core/lib/libfdt/fdt_sw.c:223-243 | appends a property token whose name, read by its distance, is the name given; no space and overrun exactly when the ledger says so, and then no token is written |
| `FdtWriter.FixNames` | core/lib/libfdt/fdt_sw.c:267-280 | the loop corrects every property token once and no other byte |
| `FdtWriter.Writer.Finish` | core/lib/libfdt/fdt_sw.c:245-288 | the finished blob is well formed, with the END tag behind its tree, means what was written, and keeps the reserve map; no space exactly when the END tag has no room |
| `FdtRoundTrip.WriteTree` | core/lib/libfdt/fdt_sw.c:170-243 | any tree, through begin, property and end calls, is written as a tree with that meaning, or the answer is the one that the sizes of the calls before determine; with the stated room it does not fail |
| `FdtRoundTrip.WriteReserve` | core/lib/libfdt/fdt_sw.c:140-166 | all entries are written and the map is ended; it fails exactly when they do not fit |
| `FdtRoundTrip.Emit` | core/lib/libfdt/fdt_sw.c:73-288 | create, any reserve map, any tree, finish, on a buffer of any size: success, no space and overrun are each decided by the sizes alone; on success the blob's meaning is the tree given and its reserve map holds the entries given and an end; the stated size is always enough |
| `FdtRoundTrip.NoOverrun` | core/lib/libfdt/fdt_sw.c:200-243 | a buffer at least as long as all property names with their NULs is never run over |
| `FdtRoundTrip.OneName` | core/lib/libfdt/fdt_sw.c:200-243 | a node with one property, where the calls before it have room, runs over the buffer if and only if its name with the NUL is longer than the buffer |
| `FdtRoundTrip.LongName` | core/lib/libfdt/fdt_sw.c:211-219 | a name of 200 bytes on a buffer of 128: 73 bytes go in front of the buffer |
| `FdtReadBack.ReadProps` | core/lib/libfdt/fdt_ro.c:221-258 | the walk with first and next property offset reads all properties of a node, in order, with names and values |
| `FdtReadBack.ReadChildren` | core/lib/libfdt/fdt.c:201-227 | the walk with first and next subnode reads all subnodes of a node, in order, each with all below it |
| `FdtReadBack.ReadNode` | core/lib/libfdt/fdt_ro.c:201-258 | name, properties and subnodes so read are the node's meaning |
| `FdtRoundTrip.ReadTree` | core/lib/libfdt/fdt_ro.c:201-258 | reading a whole blob in this way gives its meaning |
| `FdtRoundTrip.EmitAndRead` | core/lib/libfdt/fdt_sw.c:88-288 | a tree that is written and read back by these calls is the tree given, and the reserve map has the entries before the first empty one; the other answers are those of the sizes |
| `FdtReserve.EntryRead` | core/lib/libfdt/fdt_ro.c:91-97 | entry i of a written reserve map is read as it was given |
| `FdtReserve.MapIsBigEndian` | core/lib/libfdt/include/fdt.h:76-79 | entry i of a map is sixteen bytes, address and size, most significant byte first |
| `FdtReserve.MapEnds` | core/lib/libfdt/fdt_ro.c:99-106 | a written map ends at its first entry of size zero |
| `FdtReserve.NumReserve` | core/lib/libfdt/fdt_ro.c:99-106 | the loop counts the entries before the one of size zero |
| `FdtPath.PathOffset` | core/lib/libfdt/fdt_ro.c:157-199 | the node reached by taking at each component the first child of that full or base name, or not found exactly when that leads nowhere |
| `FdtPath.ResolveLeads` | core/lib/libfdt/fdt_ro.c:157-199 | resolving components one by one is going to the first child called so at each level |
| `FdtPath.StackAlong` | core/lib/libfdt/fdt_ro.c:357-407 | at a node's begin tag the open nodes are those on the way to it |
| `FdtPath.GetPath` | core/lib/libfdt/fdt_ro.c:357-407 | for every offset: in the tree, the node's path and a NUL, no space exactly when they do not fit, and bad offset where no node stands; with a buffer of two bytes or more it reads in front of the buffer if and only if the offset is at or behind the end of the tree |
| `FdtPath.PopAll` | core/lib/libfdt/fdt_ro.c:371-376 | dropping names to depth -1 always ends in front of the buffer |
| `FdtPath.ComponentsOf` | core/lib/libfdt/fdt_ro.c:175-196 | splitting at slashes undoes joining with slashes, for nonempty slash-free names |
| `FdtPath.ResolveAlong` | core/lib/libfdt/fdt_ro.c:132-199 | the names on the way to a node lead to it when no earlier sibling matches |
| `FdtPath.PathIsRead` | core/lib/libfdt/fdt_ro.c:157-199 | the path string of a node is a slash and a name for each level, or one slash for the root, and resolves to that node |
| `FdtPath.PathRoundTrip` | core/lib/libfdt/fdt_ro.c:157-407 | writing a node's path and looking it up gives the node's offset back whenever the path fits |
| `FdtAncestors.OpenersAlong` | core/lib/libfdt/fdt_ro.c:409-443 | the begin tags open at a node are those of its ancestors, in order |
| `FdtAncestors.SupernodeAtDepth` | core/lib/libfdt/fdt_ro.c:409-443 | for every offset: the offset of the ancestor at the depth asked for, and the node's depth; not found exactly for a negative or a greater depth; bad offset where no node stands; not found with depth -1 at the end of the tree, and bad structure behind it |
| `FdtAncestors.NodeDepth` | core/lib/libfdt/fdt_ro.c:445-454 | the length of the node's path, or the error of the offset, for every offset |
| `FdtAncestors.ParentOffset` | core/lib/libfdt/fdt_ro.c:456-464 | the parent's offset, not found for the root, or the error of the offset, for every offset |
| `FdtAncestors.DownAndUp` | core/lib/libfdt/fdt_ro.c:456-464 | the parent of a node's first subnode is the node |
| `FdtAncestors.AsideAndUp` | core/lib/libfdt/fdt_ro.c:456-464 | the next sibling has the same parent |
| `FdtPack.ThreeBlocks` | core/lib/libfdt/fdt_rw.c:395-415 | three block moves in a row, none over a block still to be moved, carry all three blocks over |
| `FdtPack.PackBlocks` | core/lib/libfdt/fdt_rw.c:395-415 | the blocks arrive one behind the other with their contents, and no byte outside is written |
| `FdtPack.Memory.Pack` | core/lib/libfdt/fdt_rw.c:481-493 | in place, reserve map, structure and strings are kept and stand without gaps behind the forty bytes of the header, and the total size is their sum; a blob older than version 17 and one with misordered blocks are refused unchanged |
| `FdtPack.FindSize` | core/lib/libfdt/fdt_rw.c:431-439 | the loop over an old blob's tags, where it ends, computes the specified size, or the error |
| `FdtPack.SizeIsFound` | core/lib/libfdt/fdt_rw.c:431-439 | it ends in every block where no aligned property has the length word 0xFFFFFFF4 |
| `FdtPack.SizeOfTree` | core/lib/libfdt/fdt_rw.c:431-439 | for the block of a tree, as the editor and the writer leave it, that size is the length of the tree's bytes with the END tag |
| `FdtPack.SizeOfTokens` | core/lib/libfdt/fdt_rw.c:431-439 | for tokens with an END tag behind them that size is the length of their bytes |
| `FdtPack.Memory.Reorder` | core/lib/libfdt/fdt_rw.c:452-478 | misordered blocks are put in order, also in the blob's own place; no space exactly when they fit neither before nor behind the old blob in the buffer |
| `FdtPack.Memory.OpenInto` | core/lib/libfdt/fdt_rw.c:417-479 | for blobs of every version: the blob in the buffer has the same contents, in order, with the buffer's size; no space exactly by the stated sizes, an unreadable old structure block is reported, and then nothing changes |
| `FdtPack.Memory.OpenSized` | core/lib/libfdt/fdt_rw.c:440-479 | the part after the size is known, with the exact condition for no space |
| `FdtPack.OpensExactly` | core/lib/libfdt/fdt_rw.c:441-467 | when a blob can be opened into a buffer, in offsets and sizes; never below its packed size, always into a buffer apart from it and no smaller |
| `FdtPack.Memory.OpenAndPack` | core/arch/arm/kernel/generic_boot.c:171-183 | opening and then packing keeps the contents, ends packed, and writes only inside the buffer |
| `Descriptors.SectionBits` | core/arch/arm/mm/core_mmu_v7.c:350-441 | the bits of a section descriptor: below the base address, of section type, not a supersection |
| `Descriptors.TableBits` | core/arch/arm/mm/core_mmu_v7.c:350-441 | the bits of a table pointer: below the table's address, of pointer type |
| `Descriptors.PageBits` | core/arch/arm/mm/core_mmu_v7.c:350-441 | the bits of a page descriptor: below the page's address, of page type |
| `Descriptors.SectionGrants` | core/arch/arm/mm/core_mmu_v7.c:350-441 | read as the hardware reads a section (NS, AP, XN, PXN, nG and the TEX, C and B index), the descriptor gives the access that the attributes ask for |
| `Descriptors.PageGrants` | core/arch/arm/mm/core_mmu_v7.c:350-441 | read as the hardware reads a page, with NS and PXN from the table pointer, the two descriptors give the access that the attributes ask for |
| `Descriptors.GrantedIsRead` | core/arch/arm/mm/core_mmu_v7.c:350-441 | both, as one value: secure, global, memory kind, and who may read, write and execute |
| `Descriptors.UserWrites` | core/arch/arm/mm/core_mmu_v7.c:372-402 | the user may write exactly what the attributes say unless it may read what only the core is to write |
| `Descriptors.CoreExecutes` | core/arch/arm/mm/core_mmu_v7.c:372-396 | the core may execute exactly what the attributes say unless only the user is to execute and nothing forbids it to the core |
| `PageTables.Tables.constructor` | core/arch/arm/mm/core_mmu_v7.c:693-704 | empty tables translate nothing |
| `PageTables.Tables.AllocTable` | core/arch/arm/mm/core_mmu_v7.c:232-247 | a cleared table never handed out before, or none left |
| `PageTables.Tables.FillPages` | core/arch/arm/mm/core_mmu_v7.c:563-598 | the chunk's pages get their descriptors; it stops exactly at a conflicting entry |
| `PageTables.Tables.MapChunk` | core/arch/arm/mm/core_mmu_v7.c:600-625 | the walk of every address of the chunk gives its place in the slot and every other walk is unchanged; it stops exactly at a conflict or when no table is left |
| `PageTables.Tables.MapSection` | core/arch/arm/mm/core_mmu_v7.c:645-651 | one more section of the region is mapped |
| `PageTables.Tables.MapSections` | core/arch/arm/mm/core_mmu_v7.c:627-652 | every walk in the region gives pa + (va - region.va), others are unchanged; it stops exactly at a conflicting entry |
| `PageTables.Tables.MapOneChunk` | core/arch/arm/mm/core_mmu_v7.c:683-690 | one more chunk of the region is mapped |
| `PageTables.Tables.MapPages` | core/arch/arm/mm/core_mmu_v7.c:681-690 | the chunks cover the region exactly; with empty slots and tables left it does not stop, and takes one table for each slot |
| `PageTables.Tables.MapMemarea` | core/arch/arm/mm/core_mmu_v7.c:658-691 | the region is mapped by sections or by pages and every other walk is unchanged; with empty slots and tables left it does not stop |
| `PageTables.Tables.MapAll` | core/arch/arm/mm/core_mmu_v7.c:693-704 | the walk of every 32-bit address is what the region list says, and in every region the descriptors found on the walk grant what the region's attributes ask for; it does not stop for regions in slots of their own with tables enough |
| `PageTables.GrantedEverywhere` | core/arch/arm/mm/core_mmu_v7.c:658-704 | tables that agree with disjoint regions grant, at every address of every region, what its attributes ask for |
| `PageTables.NoSectionsInside` | core/arch/arm/mm/core_mmu_v7.c:658-704 | while the tables agree with disjoint regions, no section lies where a new region needs pages |
| `PageTables.PagedIsLinear` | core/arch/arm/mm/core_mmu_v7.c:585-587 | page mapping gives pa + (va - region.va) on the whole region if and only if va and pa agree modulo 1 MiB |
| `PageTables.MisplacedRegion` | core/arch/arm/mm/core_mmu_v7.c:585-587 | a page-sized region at a 1 MiB boundary whose page is mapped 4 KiB too low |
| `PageTables.Pa2VaWalk` | core/arch/arm/mm/core_mmu.c:755-761 | translating a physical address and walking the tables is the identity on congruent regions |
| `Placement.LowestFlat` | core/arch/arm/mm/core_mmu.c:548-560 | a lower bound of all flat regions, not below the start of TEE RAM |
| `Placement.PlaceAbove` | core/arch/arm/mm/core_mmu.c:579-596 | all ranges are pairwise disjoint, secure and non-secure regions never share a 1 MiB slot, flat regions stay, every other starts a slot, and all lie in the stated range above TEE RAM |
| `Placement.PlaceBelow` | core/arch/arm/mm/core_mmu.c:562-578 | the same for the layout below, in the stated range below the lowest flat region |
| `Placement.Place` | core/arch/arm/mm/core_mmu.c:543-597 | the same for the layout that the lowest flat address selects |
| `Placement.PlacedIsLinear` | core/arch/arm/mm/core_mmu.c:543-597 | a region that the placement moved is mapped by pages at its own addresses if and only if its physical address starts a 1 MiB slot |
| `Threads.BootInv` | core/arch/arm/kernel/thread.c:263-277 | the state after boot satisfies the ownership invariant |
| `Threads.StepKeepsInv` | core/arch/arm/kernel/thread.c:279-408 | every step of every core keeps it, between taking the lock and noting the thread too |
| `Threads.RunKeepsInv` | core/arch/arm/kernel/thread.c:263-408 | every state of every interleaving of any number of cores satisfies it |
| `Threads.OneOwner` | core/arch/arm/kernel/thread.c:263-408 | a thread is active exactly when a core owns it, no two cores own one thread, and no two cores have noted the same thread |
| `Threads.RefusedWhenFull` | core/arch/arm/kernel/thread.c:289-323 | a core is refused only when no thread is free while it holds the lock |
| `Gpio.Port.IcrMask` | core/drivers/imx_gpio.c:361-366 | the loop selects exactly the two-bit fields of the secure pins |
| `Gpio.Port.Check` | core/drivers/imx_gpio.c:281-380 | a write to a plain register is refused exactly when it would change a secure pin's bits; reads hide secure bits in the data, direction and interrupt registers |
| `Gpio.Port.Acquire` | core/drivers/imx_gpio.c:396-407 | a pin becomes secure, and is refused exactly when it already is |
| `Gpio.Port.Release` | core/drivers/imx_gpio.c:430-441 | a pin is given back, and is refused exactly when it is not secure |
| `Gpio.Port.Load` | core/arch/arm/secloak/emulation.c:101-119 | data and direction read as 0 in secure positions and as they are elsewhere |
| `Gpio.Port.Store` | core/arch/arm/secloak/emulation.c:121-125 | a word is stored unless it would change secure bits, and these never change |
| `Gpio.Port.Run` | core/drivers/imx_gpio.c:281-380 | over any run of accesses the secure pins' bits in data, direction, edge and configuration registers stay |
| `Gpio.PinIsKept` | core/drivers/imx_gpio.c:281-380 | what stays of a secure pin: its bit of the data, direction and edge registers, and bits 2n and 2n + 1 of the configuration register of its half of the port |
| `Printf.NumeralDenotes` | lib/libutils/ext/snprintk.c:495-536 | the digits denote the number in the base, with no leading zero |
| `Printf.NumeralFits` | lib/libutils/ext/snprintk.c:495-536 | the digits of a 64-bit number fit the conversion buffer |
| `Printf.DecimalDigits` | lib/libutils/ext/snprintk.c:513-520 | the decimal loop writes the numeral |
| `Printf.BinaryDigits` | lib/libutils/ext/snprintk.c:503-527 | the octal and hexadecimal loops write the numeral |
| `Printf.Digits` | lib/libutils/ext/snprintk.c:502-535 | the switch over the bases writes the numeral within the buffer |
| `Printf.RenderedLength` | lib/libutils/ext/snprintk.c:564-571 | what is added to the count for a field is the length of what is printed for it |
| `Printf.IntegersDenote` | lib/libutils/ext/snprintk.c:378-536 | the digits of an integer directive denote its magnitude and the sign says whether it is negative; no digits exactly for zero with precision zero |
| `PrintfText.FieldLayout` | lib/libutils/ext/snprintk.c:549-608 | a field is blanks, prefix, zeros, body and blanks, each as many as flags, width and precision ask for |
| `PrintfText.NumberLayout` | lib/libutils/ext/snprintk.c:373-538 | the prefix of a number, the case of its digits, the leading zero of octal numbers, and zero padding only without a precision |
| `PrintfText.TextLayout` | lib/libutils/ext/snprintk.c:373-548 | characters and strings, cut to the precision |
| `PrintfText.PrintedIsRead` | lib/libutils/ext/snprintk.c:373-608 | a reader written without the printer gets the number back from the text of any integer directive, whatever its flags, width and precision |
| `Printf.ConvertNumber` | lib/libutils/ext/snprintk.c:487-538 | the field of a number, with precision, zero padding and alternate form |
| `Printf.Sink.Put` | lib/libutils/ext/snprintk.c:204-211 | the output grows by the character and the buffer holds its longest prefix that fits |
| `Printf.Sink.PutField` | lib/libutils/ext/snprintk.c:564-608 | padding, prefix, zeroes and body come out in order, and the count is their length |
| `PrintfFormat.ReadNumber` | lib/libutils/ext/snprintk.c:327-347 | the digit loops read the longest run of digits, as the number it denotes |
| `PrintfFormat.ReadModifier` | lib/libutils/ext/snprintk.c:289-372 | one flag, width, precision or length modifier, those taken from an argument included, is read as specified |
| `PrintfFormat.ReadSize` | lib/libutils/ext/snprintk.c:320-349 | a width or a precision, likewise |
| `PrintfFormat.ReadDirective` | lib/libutils/ext/snprintk.c:281-548 | the loop over the characters behind a percent sign gives the directive specified for them and the arguments, and what is left of both |
| `PrintfWritten.FormatIsRead` | lib/libutils/ext/snprintk.c:273-548 | directives of any kind, in any of their spellings (flags, width and precision in digits or as arguments, a negative width, every length modifier, d, i, D, o, O, u, U, x, X, p, c, s, n, other characters, and the UUID extension), with arguments of the types named, are read back as they were |
| `PrintfWritten.NumberIsHeld` | lib/libutils/ext/snprintk.c:187-202 | what is taken for an argument of 16, 32 or 64 bits lies in the range of the signed or unsigned type and differs from the argument by a multiple of two to the power of the width |
| `PrintfWritten.HeldOnce` | lib/libutils/ext/snprintk.c:187-202 | and there is only one such number |
| `PrintfWritten.NumberComesBack` | lib/libutils/ext/snprintk.c:273-615 | what a format prints for a number of any type, with any flags, reads as that number |
| `PrintfFormat.Kprintf` | lib/libutils/ext/snprintk.c:234-615 | for every format and arguments that suit it, what is printed is the complete text of the directives they make up, and the count is its length |
| `PrintfFormat.Vsnprintf` | lib/libutils/ext/snprintk.c:133-150 | returns the length of the complete output of the format for any buffer size; the buffer holds its longest fitting prefix and a NUL, and nothing behind the buffer is written (section 7.19.6.5 of ISO/IEC 9899:1999) |

## Left out

- Malloc.RawMalloc: a request that passes the wrap test is limited so that its rounded size fits the signed size word, as BGET demands of its callers by assertion; the same limit is in the other calls.
- Malloc.RawCalloc: the same limit on the 32-bit product.
- Bget.Heap.CreateFreeBlock: the assertion at lib/libutils/isoc/bget_malloc.c:360 is not modelled, because the front trim calls the function before that word is written.
- Pools.AddPool: a failing reallocation of the pool table is a result here, where the source asserts that it does not happen.
- HeapRuns.Run: requires that new pools are apart from the old ones and from the list head, as the source does without checking.
- FdtPath.PathOffset: paths that start with an alias are not modelled.
- FdtPath.GetPath: what it finds in front of the buffer, and so its answer then, is not modelled.
- FdtWriter.Writer.FindAddString: what the calls do after an overrun is not modelled, because the overwritten header words are fields here.
- FdtWriter.Writer.constructor: the refusal of a smaller buffer is in `FdtRoundTrip.Emit`.
- FdtPack.Memory.OpenInto: the boot CPU and version fields that it writes are not followed.
- FdtPack.Memory.Pack: a reserve map that runs into the structure block, which the source's check lets pass because it counts one entry only, is not covered.
- PageTables.Tables.MapMemarea: a false result stands for a panic or a failed assertion of the source; regions without the valid attribute and dynamic address space are not modelled.
- Placement.Place: addresses are plain numbers, which are those of the 32-bit code when the stated range lies within 32 bits; what happens on wrap-around is not modelled, and the region list is already built.
- PrintfFormat.Kprintf: overflow of counts and widths is not modelled, nor where %n stores; the UUID extension is given the text of the UUID.
- PrintfWritten.FormatIsRead: a directive is written with at most one length modifier, and with its flags in one order.
- Gpio.Port.Run: registers hold what is written to them; effects of the hardware on them are not modelled, and accesses are whole words. The port is not put into the emulator's region list, because its check changes the port's registers where the drivers of `Emulation.Emulator` are functions.
- BGET's expansion hooks, best fit, wiping and dumping, the statistics hooks and the contents of debug headers.
- A header word is one number that takes the place of four cells; its bytes are not modelled.
- malloc_buffer_overlaps_heap.
- The swap by words or bytes in qsort, and element sizes: elements are values.
- Interrupt lines of devices (the GIC), CSU access rights of masters, and decoding of the emulated instruction.
- A register change by a driver's own check during an access that is then refused (only the GPIO model has such a check).
- Parsing and probing of the device tree into devices: `Cloak.Monitor.AddDevice` takes the device.
- The drawing, the locking and the waiting in entry.c.
- libfdt's header words as bytes (they are fields here), magic and version checks, alias expansion, in-place value setters, editing of the reserve map, fdt_resize, and 32-bit wrap in the sums of the in-place editor.
- An offset argument that passes the node check without being the offset of a node, as inside a property's value that looks like a begin tag.
- The code's own way back from descriptors to attributes (the hardware's is modelled), core_mmu_add_mapping, and merging of physical memory.
- Sorting passes over the region list, since `Qsort.Qsort` covers the algorithm.
- thread_clr_boot_thread takes no lock: secondary cores are assumed to start after it, as at boot. Register contents and flags of threads are not modelled.
- The interrupt handler loop and the direction setters of the GPIO driver.
- Drivers, UART, framebuffer, boot glue and scripts.
