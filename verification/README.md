# Verified model of the Global Arrays memory and communication core

The project models, in Dafny 4.11, the parts of Global Arrays in which state has to stay
consistent over long runs, and proves what they promise:

- **MA, the memory allocator** (`ma/ma.c`, `ma/table.c`). One segment holds a heap growing up
  and a stack growing down; three linked lists are threaded through the blocks, and a growable
  table maps handles to blocks. `MaState` says what each routine does on values, `MaTiling`,
  `MaRuns`, `MaHandles`, `MaClients` and `MaSafety` prove what every run keeps, `MaStack` and `MaInquire`
  relate routines to one another, and `MaAllocator.Allocator` is the code itself: pointers,
  descriptors and guard words in a memory where a write destroys what it overlaps (`MaMemory`),
  proved against `MaState`. `MaLayout` is the block layout, `MaTable` the handle table, `MaSteps`
  the memory lemmas between class and specification, `MaPieces` those of partial frees, `MaMeaning`
  what each call promises, said without the functions it is computed with, `MaExamples` the runs
  named below. A record in
  the class's memory never overlaps another, which is part of its validity: what can be read is
  intact.
- **The K&R buffer allocator** (`armci/src-gemini/bufalloc.c`): `BufPool` and `BufProofs` on
  values, `BufHeaders` on block headers, `BufAllocator.Buffers` in place, `BufMeaning` in bytes and
  ring order.
- **The additive feedback generator** (`compat/random.c`): `RandomGen`, `RandomState.Generator`,
  and `RandomMeaning` for the numbers that follow a seed.
- **Request aggregation** (`armci/src-gemini/aggregate.c`): `AggBuffer` for one buffer filled from
  both ends, `Aggregator.Aggregates` for all of them.
- **Strided array copies** (`armci/f90/armcif90.c`, `armci/f90/arraywrap.c`): `Strided` and
  `FarrayCopy`.
- **CPU sets as text** (`armci/src-gemini/armci.c`): `CpuText`, `CpuSets`, and
  `CpuMeaning` for what a text means in characters and cpu numbers.
- **The notify protocol** (`armci/src-gemini/armci.c`): `NotifyProtocol` as a state machine over all
  interleavings, `NotifyArrays.Processes` as the counters the processes keep.
- **Matrix multiplication** (`LinAlg/lapack+blas/xgemm.c`): `Gemm`, `GemmLoops`, and
  `GemmMeaning` for the product by stored positions and literal flags.

Code that works in place is a class or a loop proved against a function of the old state; the
laws are lemmas about that function. Answers of the system (an address from the system
allocator, whether a table could grow, what a client stores) are parameters, so each theorem
holds for all of them. `Arith` and `Lists` hold shared facts.

Parameters: the sizes of the descriptor, the guard and each datatype, the alignment (a power of
two), the base of each numeric type, the width of a machine word, the sizes of the aggregation
records. Assumptions on the environment: the sentinel of the buffer allocator is outside its
arena and not at its end; tables given to the generator hold at least deg + 1 words; puts
between two processes arrive in order; a put whose data is copied fits an empty buffer; C
overlaps neither A nor B.

## Where the code does less than its comments say

- `MA_free_heap_piece` recomputes the block with the present `ma_numalign`, leaves the client space
  where it was, and writes the guards last. `MaExamples.LoweringBreaksLayout` is a run of five calls
  in which that loses containment, `MaClients.PieceKeepsLayoutIff` the exact condition, and
  `MaClients.NeverLoweredFits` a discipline that meets it. Worse, a guard may land on the
  descriptor of the piece just freed, with its length and link: `MaExamples.GuardHitsPiece` is a run
  of seven accepted calls that ends so. `MaPieces.PieceMemory` and the contract of
  `MaAllocator.Allocator.FreeHeapPiece` give the exact condition, known before the call: memory holds
  the lists and lengths of the new state if and only if nothing is cut off, or no block in use lies
  above, or both guards miss that descriptor. What every run keeps is therefore claimed for runs
  whose partial frees fit (`MaSafety`, `MaAllocator.Allocator.Execute`).
- `MA_inquire_heap_no_partition` is documented as the largest piece of memory available. It looks
  at fragments below the partition only: `MaExamples.NoPartitionNotLargest` is a run after which it
  answers too little. `MaInquire.NoPartitionExact` is the exact condition: what each free block that
  reaches past the partition could hold fits a place the inquiry does look at. That its answer can
  always be allocated holds unconditionally (`MaInquire.InquirySound`).
- `setstate` with the table in use is called harmless by its comment; it reads a header that is
  out of date. `RandomGen.SetStateInUseFails` is a counterexample from the state a program starts
  in, `RandomGen.SetStateInUse` the exact condition: the generator is of type 0 or the rear pointer
  is where the header says. `SetStateAfter`, `SetStateAfterHeader` and `SetStateAfterReseed` say
  after how many calls of `random` that is so. Harmless means that the generator, pointers included,
  is unchanged; a table of zero words gives the same numbers from any position.
- `cpuset_to_cstr` prints an empty set as the empty string, which `cstr_to_cpuset` rejects: the
  round trip holds exactly on nonempty sets (`CpuText.ParseUndoesPrint`). `cstr_to_cpuset` does not
  return on every range, because its cpu number wraps round at 2^32 (`CpuText.ReturnsIff`).
- `balloc_before` takes a remainder in unsigned arithmetic. Its client space is aligned as its
  comment says exactly when the whole words dropped from the offset make a multiple of the element
  size: for offsets shorter than a word, when the block lies above `ma_base` or the element size
  divides the word (`MaLayout.BallocBeforeAligned`). `MaExamples.LongDoubleMisaligned` is an input
  for which it is 4 bytes off.
- `ARMCI_Put_farrays` and `ARMCI_Get_farrays` find the first element by extents and all others by
  strides. For an array with gaps they move the slice if and only if both ways agree on the first
  element and a merged first dimension has no gaps (`Strided.DescriptorIsNest`, `Strided.StartIff`,
  `FarrayCopy.CopyFarrays`); `Strided.GapsMisplace` is an array for which they do not.
- GEMM returns without touching C whenever m, n or k is not positive, although
  `C <- alpha * op(A) * op(B) + beta * C` asks for beta * C when k is 0
  (`Gemm.EmptyProductKeepsC`). The formula is met exactly when k is positive, beta is 1 or the block
  of C is zero or empty (`Gemm.ProductIff`, `Gemm.ProductIffForAll`, `Gemm.CProductIff`).

## Model

| member | source | states |
|---|---|---|
| Arith.MaskIsMod | ma/ma.c:1754-1765 | masking a word with a power of two minus one, or with its complement, gives the remainder and the multiple below, for negative words too |
| MaLayout.RoundIsLeast | ma/ma.c:1754-1765 | mai_round gives the least multiple of ALIGNMENT that is not below its argument |
| MaLayout.BallocAfterLayout | ma/ma.c:606-718 | AD, guard1, client space and guard2 lie in this order inside the block, the client space starts on a multiple of the element size, the length is a multiple of ALIGNMENT and at most the worst case of max_block_overhead when no power of two is asked for |
| MaLayout.BallocAfterMonotone | ma/ma.c:606-718 | more elements never make a shorter block |
| MaLayout.BallocBeforeLayout | ma/ma.c:722-823 | the same order and containment for a block laid out downward from the stack pointer, which ends exactly there |
| MaLayout.BallocBeforeAligned | ma/ma.c:755-760 | a downward client space is aligned if and only if the words by which the unsigned remainder reduces the offset make a multiple of the element size: for offsets of less than a word, when the offset is not negative or the element size divides the word |
| MaLayout.BallocBeforeAlignedWhen | ma/ma.c:755-760 | element sizes that divide the word, whatever the offset, and offsets that fit in a word keep every downward client space aligned |
| MaExamples.LongDoubleMisaligned | ma/ma.c:755-760 | on a 32-bit machine with 12-byte long doubles a block below ma_base has its client space 4 bytes off |
| MaLayout.ClientMonotoneInNumalign | ma/ma.c:642-673 | for power-of-two element sizes a larger ma_numalign never moves a client space down |
| MaTable.AllocateCorrect | ma/table.c:81-157 | ma_table_entries keeps counting the allocated slots; the circular search finds a free slot unless the table is full and cannot grow; no other slot changes |
| MaTable.AllocateNext | ma/table.c:90-150 | the handle is the first slot not allocated after the last one handed out, around the end of the table; a full table first gets 32 slots or twice as many, and the handle is its first new one |
| MaTable.DeallocateCorrect | ma/table.c:167-178 | the count stays right, the handle is dead, no other slot changes |
| MaTable.AssocUndoesLookup | ma/table.c:188-223 | inverse lookup gives back the handle whose data was looked up, when no data is stored twice |
| MaTable.HandleTable.Verify | ma/table.c:233-268 | true exactly for the handles of allocated slots |
| MaTable.HandleTable.LookupHandle | ma/table.c:210-223 | the loop finds a handle of the data, or none if no slot holds it |
| MaTable.HandleTable.Store | ma/table.c:81-157 | growth, circular search and cursor reach the table and handle that the specification gives |
| MaTable.HandleTable.Grow | ma/table.c:90-123 | the enlarged table keeps every old slot and starts the search at the first new one |
| MaTable.HandleTable.Release | ma/table.c:167-178 | the slot is freed as the specification says |
| MaHandles.StoreSound | ma/ma.c:2064-2070 | a new block under a fresh handle keeps handles and blocks in one-to-one correspondence |
| MaHandles.ReleaseSound | ma/ma.c:2160-2165 | so does releasing a handle together with its block |
| MaHandles.FreeHandlesSpec | ma/ma.c:1124-1164 | chopping releases the handles of the removed blocks and no other |
| MaTiling.CarveKeepsTiling | ma/ma.c:493-517 | taking a block, whole or split with the rest put back at its place in the free list, leaves the segment tiled, the free list sorted and coalesced |
| MaTiling.ExtendKeepsTiling | ma/ma.c:2005-2031 | so does adding a block at ma_hp |
| MaTiling.CoalesceKeeps | ma/ma.c:1076-1100 | one pass over the sorted free list merges all neighbours that touch, and keeps the tiling |
| MaTiling.ReclaimKeepsTiling | ma/ma.c:831-875 | freeing restores the whole invariant, whether ma_hp drops to the rightmost used block or the block joins the free list |
| MaTiling.AllocateKeepsTiling | ma/ma.c:1936-2070 | MA_allocate_heap keeps the segment tiled |
| MaTiling.FreeHeapKeepsTiling | ma/ma.c:2124-2166 | MA_free_heap keeps the segment tiled |
| MaTiling.FreePieceKeepsTiling | ma/ma.c:2181-2239 | on values, that is up to the writing of the guards: cutting a block and reclaiming the rest keep the segment tiled, whatever ma_numalign is now |
| MaTiling.PushKeepsTiling | ma/ma.c:3209-3327 | MA_push_stack keeps the stack region tiled |
| MaTiling.PopToKeepsTiling | ma/ma.c:2081-2114 | popping or chopping keeps the stack region tiled |
| MaRuns.ApplyKeeps | ma/ma.c:1936-2259 | on values, every call, accepted or rejected, keeps exact tiling, ordered pointers, coalesced free list and sound handles; MaAllocator.Allocator.Perform carries it into memory for partial frees that fit |
| MaSafety.EveryByteOwnedOnce | ma/ma.c:1936-2259 | after any sequence of calls whose partial frees fit, each byte of the heap region lies in exactly one heap block, each byte of the stack region in exactly one stack block, and the descriptor, guards and client space of a block in use in no other |
| MaSafety.OwnedInMemory | ma/ma.c:1936-2259 | the same read from memory alone, by the lists as they are linked and the lengths in the descriptors |
| MaSafety.FreeListCoalesced | ma/ma.c:831-875 | after any such run the free list strictly ascends, every free block is followed by a block in use, and nothing of a block in use reaches into a free one |
| MaSafety.HandlesMatchBlocks | ma/ma.c:2064-2070 | after any such run in which the table could grow, live handles and blocks in use correspond one to one, and two handles share no byte of descriptor, guards or client space |
| MaClients.LayoutKeeps | ma/ma.c:1936-2259 | every call keeps AD, guards and client space inside each block in use and moves no client space, if partial frees fit |
| MaClients.PieceKeepsLayoutIff | ma/ma.c:2223-2251 | a partial free keeps the layout if and only if the client space lies above the recomputed one by at most the recomputed gap2, a test on values known before the call |
| MaClients.RunLaidOut | ma/ma.c:1936-2259 | over any run whose partial frees pass that test, the parts of blocks never overlap |
| MaClients.RunLaidOutIfNeverLowered | ma/ma.c:2223-2251 | with power-of-two element sizes and a ma_numalign that is never lowered every partial free passes it |
| MaClients.NeverLoweredFits | ma/ma.c:2223-2251 | with such sizes and requests every partial free of every run fits, so all that is claimed of runs whose partial frees fit holds |
| MaClients.ClientSpacesDisjoint | ma/ma.c:606-718 | client spaces of two live blocks share no byte |
| MaExamples.LoweringBreaksLayout | ma/ma.c:2223-2251 | a run of five calls: before the last every block is laid out, after it, a partial free under a lowered ma_numalign, a client space reaches past its block |
| MaExamples.GuardHitsPiece | ma/ma.c:2228-2251 | a run of seven accepted calls after which guard2 of the kept block lies on the length of the free block that was cut off, so that no memory holds the lengths of the state |
| MaPieces.RestStays | ma/ma.c:831-875 | the piece cut off stays a block if and only if a block in use lies above it |
| MaPieces.FitsSpares | ma/ma.c:2223-2251 | a partial free that fits destroys no descriptor |
| MaPieces.PieceMemory | ma/ma.c:2223-2251 | after any partial free, fitting or not, all blocks in use are sealed, the client bytes of the others stay, and lists and lengths in memory are those of the new state if and only if the guards spare the piece cut off, a test on values known before the call |
| MaStack.ChopIsPops | ma/ma.c:2081-2114 | MA_chop_stack reaches exactly the state, handle table included, of popping from the top down to and including the named block |
| MaStack.PopUndoesPush | ma/ma.c:3209-3327 | pop after push restores ma_sp, the stack, all lengths and descriptors and every live handle |
| MaInquire.MaNelem | ma/ma.c:1518-1551 | the loop returns the largest request that fits the given length |
| MaInquire.FitsIffUpTo | ma/ma.c:1518-1551 | exactly the requests up to that answer fit |
| MaInquire.PrunedIsSmaller | ma/ma.c:1459-1512 | a fragment skipped for being shorter than min_nelem could not have given a larger answer |
| MaInquire.InquireIsExact | ma/ma.c:2664-2858 | an inquiry answer separates the requests that fit the gap or a visible fragment from those that do not |
| MaInquire.SpaceIff | ma/ma.c:2001-2027 | MA_allocate_heap finds space exactly when some whole free block, or the gap up to ma_sp, is long enough |
| MaInquire.InquirySound | ma/ma.c:2805-2858 | every positive request up to the answer of an inquiry that stops at ma_sp finds space |
| MaInquire.NoPartitionExact | ma/ma.c:2805-2858 | the no-partition answer is the largest request that finds space if and only if what each free block reaching past ma_partition could hold is nothing or fits a fragment below it or the gap |
| MaInquire.NoPartitionExactBelow | ma/ma.c:2805-2858 | so it is while every free block ends at or below ma_partition |
| MaExamples.NoPartitionNotLargest | ma/ma.c:2790-2801 | a run of four calls after which it is not the largest piece of memory |
| MaInquire.InitSatisfiesNominal | ma/ma.c:2473-2533 | right after MA_init(d, S, H) one heap request of H and one stack request of S both succeed, in either order |
| MaSteps.ClientStoreKeeps | ma/ma.c:1027-1066 | a store inside one client space changes no descriptor, guard, list or other client space |
| MaMeaning.AfterHonours | ma/ma.c:650-673 | going up, the client space is the nearest multiple of 2^ma_numalign above the unshifted one exactly when the distance is a multiple of the element size |
| MaMeaning.BeforeHonours | ma/ma.c:768-789 | the same going down |
| MaMeaning.AllocateHonours | ma/ma.c:650-673 | with a power-of-two element size that divides ma_base a new heap block's client space is on the requested boundary |
| MaMeaning.PushHonours | ma/ma.c:768-789 | likewise on the stack, if the size divides the word too |
| MaMeaning.InitRegions | ma/ma.c:2473-2533 | the segment is split at the partition; a negative wish gives a region of the default 524288 bytes rounded up, any other room for that many elements and one block's overhead |
| MaMeaning.NumalignEffect | ma/ma.c:3394-3412 | 0 to 30 are taken and nothing else, and nothing else changes |
| MaMeaning.MinBlockMeans | ma/ma.c:104-106 | the shortest block split off holds one ALIGNMENT of client space |
| MaMeaning.AllocateEffect | ma/ma.c:1936-2070 | a request that finds space yields a fresh handle of a new block of that many elements, client space inside; all other blocks and handles stay |
| MaMeaning.TakesFirstFit | ma/ma.c:493-517 | the first free block by address that fits is taken, and what it does not need stays free behind it if long enough |
| MaMeaning.ExtendsLast | ma/ma.c:2005-2060 | the heap grows at ma_hp only when no free block fits, and never past ma_sp |
| MaMeaning.PushEffect | ma/ma.c:3209-3327 | a push succeeds exactly when it fits between ma_hp and ma_sp and then yields a fresh handle of a new top block |
| MaMeaning.PopEffect | ma/ma.c:3069-3112 | only the top block's handle is taken; it and the block are gone and the rest of the stack stays |
| MaMeaning.FreeEffect | ma/ma.c:2124-2166 | exactly live heap handles are taken; no block in use has the freed bytes, all other blocks and handles stay |
| MaMeaning.PieceEffect | ma/ma.c:2181-2259 | on values: the first elements stay; the block gives up what it no longer needs if that is long enough for a block |
| MaMeaning.InquiryMeans | ma/ma.c:2664-2858 | the three inquiries by what fits in the gap up to their limit or in the part of a free block below the partition |
| MaMeaning.CheckStackSound | ma/ma.c:2735-2858 | every positive request up to the answer of MA_inquire_heap_check_stack or of the inquiry without partition finds space |
| MaMeaning.InquireHeapSound | ma/ma.c:2664-2724 | likewise for MA_inquire_heap while the stack has not passed the partition |
| MaMeaning.StoreSealedIff | ma/ma.c:1027-1066 | a byte stored anywhere leaves a block's seal exactly when it misses descriptor and guard words |
| MaMeaning.ChecksumDetects | ma/ma.c:939-948 | a change of one of the four summed fields by less than a word's range changes the checksum; link and checksum do not count |
| MaAllocator.Allocator.ListInsertOrdered | ma/ma.c:1231-1274 | the walk links the block in at its place by address |
| MaAllocator.Allocator.ListDelete | ma/ma.c:1174-1206 | finds and unlinks the first match, or reports that there is none |
| MaAllocator.Allocator.ListDeleteAbove | ma/ma.c:1124-1164 | list_delete_many with ad_gt: what is left is the members up to the bound, in order |
| MaAllocator.Allocator.ListDeleteUpTo | ma/ma.c:1124-1164 | list_delete_many with ad_le and mh_free on the stack list |
| MaAllocator.Allocator.ListMember | ma/ma.c:1282-1296 | membership by walking the list |
| MaAllocator.Allocator.ListCoalesce | ma/ma.c:1076-1100 | the in-place pass reaches the coalesced free list |
| MaAllocator.Allocator.RightmostUsed | ma/ma.c:838-850 | the largest address on the used list |
| MaAllocator.Allocator.BlockFreeHeap | ma/ma.c:831-875 | lowers ma_hp and truncates the free list, or inserts and coalesces, touching only free descriptors |
| MaAllocator.Allocator.BlockSplit | ma/ma.c:887-930 | both parts are described and linked, also when the list being walked is the one inserted into |
| MaAllocator.Allocator.TakeFirstFit | ma/ma.c:493-517 | the traversal that splits and unlinks under its own feet leaves exactly the free list of the specification |
| MaAllocator.Allocator.GuardSet | ma/ma.c:1053-1066 | both guards are written where the descriptor puts them, guard2 last, over whatever lies there |
| MaAllocator.Allocator.GuardCheck | ma/ma.c:1027-1042 | intact exactly when both guards read as their signatures |
| MaAllocator.Allocator.Mh2ad | ma/ma.c:1587-1720 | accepts exactly the live handles whose block is where the caller needs it |
| MaAllocator.Allocator.AllocateHeap | ma/ma.c:1936-2070 | pointers, lists, descriptors and table reach the state of the specification, no client byte changes, and no record is left overlapping another |
| MaAllocator.Allocator.FreeHeap | ma/ma.c:2124-2166 | likewise for MA_free_heap |
| MaAllocator.Allocator.FreeHeapPiece | ma/ma.c:2181-2259 | reaches the state of the specification on values; the lists and lengths in memory are those of that state if and only if PieceSpares held before; if the kept elements fit the object stays valid and no client byte changes; other blocks keep their seals and bytes in any case |
| MaAllocator.Allocator.PushStack | ma/ma.c:3209-3327 | likewise for MA_push_stack |
| MaAllocator.Allocator.PopStack | ma/ma.c:3069-3112 | likewise for MA_pop_stack |
| MaAllocator.Allocator.ChopStack | ma/ma.c:2081-2114 | likewise for MA_chop_stack |
| MaAllocator.Allocator.Init | ma/ma.c:2430-2547 | an empty tiled segment split at the partition, or no change |
| MaAllocator.Allocator.SetNumalign | ma/ma.c:3394-3412 | accepts 0 to 30 and changes nothing else |
| MaAllocator.Allocator.ClientStore | ma/ma.c:1027-1066 | a client writing its own space invalidates no block |
| MaAllocator.Allocator.Perform | ma/ma.c:1936-2259 | one call of any kind, whatever its answer, keeps memory on the state of the specification, if a partial free fits |
| MaAllocator.Allocator.Execute | ma/ma.c:1936-2259 | so does any sequence of calls from the state before MA_init whose partial frees fit |
| MaAllocator.Allocator.ByteOwner | ma/ma.c:1936-2259 | in every state so reached the lists and lengths in memory give each byte its one owner |
| MaAllocator.Allocator.MaxHeapFragNelem | ma/ma.c:1459-1512 | the pruned walk over the free list gives the maximum of the specification |
| MaAllocator.Allocator.InquireHeap | ma/ma.c:2664-2858 | the three heap inquiries compute the answer whose exactness is proved above |
| BufProofs.OneDescent | armci/src-gemini/bufalloc.c:113-170 | the circular free list ascends everywhere but at one place |
| BufProofs.StopsAtPlaceOnly | armci/src-gemini/bufalloc.c:147-150 | the search condition holds at exactly one node of the ring, the one the block belongs after |
| BufProofs.AllocNullIff | armci/src-gemini/bufalloc.c:227-280 | NULL exactly when no free block has enough units, from any freep |
| BufProofs.AllocKeeps | armci/src-gemini/bufalloc.c:227-280 | allocation keeps the arena tiled and the free list coalesced |
| BufProofs.FreeKeeps | armci/src-gemini/bufalloc.c:283-340 | freeing keeps the arena tiled and the free list coalesced |
| BufProofs.FreeUndoesAlloc | armci/src-gemini/bufalloc.c:227-340 | freeing what was just allocated restores every free and used extent |
| BufProofs.InitKeeps | armci/src-gemini/bufalloc.c:173-222 | a fresh arena is one free block |
| BufProofs.ArenaTiled | armci/src-gemini/bufalloc.c:173-340 | after any calls every byte of the arena belongs to exactly one block, free or used but not both, and no free blocks touch |
| BufMeaning.AllocRoom | armci/src-gemini/bufalloc.c:227-280 | the block handed out is newly in use, lies in the arena and holds the bytes asked for with less than one unit to spare |
| BufMeaning.AllocNullInBytes | armci/src-gemini/bufalloc.c:227-280 | NULL exactly when every free block ends before a header and the request would |
| BufMeaning.AllocNextFit | armci/src-gemini/bufalloc.c:243-273 | the end of the first fitting free block behind freep round the ring, and freep moves before that block |
| BufMeaning.FreeFrees | armci/src-gemini/bufalloc.c:113-170 | each byte of the freed block is in a free block afterwards and every other block in use stays |
| BufMeaning.FreeLeavesPointer | armci/src-gemini/bufalloc.c:137-167 | freep is left at the nearest free block below the one freed, or at the sentinel |
| BufAllocator.Buffers.constructor | armci/src-gemini/bufalloc.c:173-222 | the headers of a fresh arena represent the one-block pool |
| BufAllocator.Buffers.Alloc | armci/src-gemini/bufalloc.c:227-280 | the roving search over the ring returns what the specification returns, and stops |
| BufAllocator.Buffers.TakeFrom | armci/src-gemini/bufalloc.c:248-273 | an exact fit leaves the ring, a longer block gives up its tail under a header of its own |
| BufAllocator.Buffers.Extract | armci/src-gemini/bufalloc.c:127-134 | the block leaves the used list, or is reported not to be on it |
| BufAllocator.Buffers.Search | armci/src-gemini/bufalloc.c:137-139 | from any freep the search stops, at the place of the block |
| BufAllocator.Buffers.Rejoin | armci/src-gemini/bufalloc.c:141-165 | in-place header edits join the block to both neighbours as the specification does |
| BufAllocator.Buffers.Free | armci/src-gemini/bufalloc.c:283-340 | tokens, used list, ring search and joining together compute the specification |
| RandomGen.OneWraps | compat/random.c:185-209 | the pointers stay sep apart round the table and never wrap on the same call |
| RandomGen.RefinesRecurrence | compat/random.c:191-211 | the n-th number is x(n + deg) without its low bit, where x(i) = x(i - deg) + x(i - sep) modulo the word |
| RandomGen.RearAfter | compat/random.c:191-211 | after n calls the rear pointer has moved n places round the table |
| RandomGen.SeededRear | compat/random.c:228-246 | 10 * deg calls bring the rear pointer back to 0, so a fresh header is the bare type |
| RandomGen.HeaderDecodes | compat/random.c:345-365 | the saved word and the table words determine the generator, both pointers included |
| RandomGen.StreamIsSolo | compat/random.c:191-367 | under any interleaving of random, srandom, initstate and setstate a table yields the stream it would yield alone |
| RandomGen.SetStateInUse | compat/random.c:329-330 | in every state, setstate to the table in use leaves the generator as it is if and only if it is of type 0 or its rear pointer is where the header says |
| RandomGen.SetStateAfter | compat/random.c:329-365 | n calls of random after any state it is harmless if and only if they bring the rear pointer to the header's position |
| RandomGen.SetStateAfterHeader | compat/random.c:329-365 | n calls after the header was written: when n is a multiple of deg |
| RandomGen.SetStateAfterReseed | compat/random.c:228-246 | n calls after srandom, which does not rewrite the header: when n is the header's position modulo deg |
| RandomGen.SetStateInUseFails | compat/random.c:329-330 | with 64-bit words, random then setstate to randtbl from the initial state changes the next number |
| RandomMeaning.WrapMeans | compat/random.c:228-246 | a word is its value modulo the range of long |
| RandomMeaning.RecurMeans | compat/random.c:69-101 | the recurrences of the four trinomials, with their literal degrees and separations |
| RandomMeaning.SeededOutput | compat/random.c:228-246 | the n-th number after seeding from the words the seed fills in, 10 * deg numbers thrown away |
| RandomMeaning.Type0Output | compat/random.c:195-196 | type 0 gives the plain congruential sequence from the seed |
| RandomMeaning.SrandomSpeaks | compat/random.c:228-246 | after srandom the generator in use gives those numbers, whatever came before |
| RandomMeaning.InitStateSpeaks | compat/random.c:266-318 | likewise after initstate, on the new table |
| RandomMeaning.KindIsLargest | compat/random.c:280-310 | initstate takes the largest generator whose words and header fit in n bytes at 4 a word |
| RandomState.Generator.constructor | compat/random.c:127-172 | the static initial state is a generator of type 3 with its rear pointer at 0 |
| RandomState.Generator.Draw | compat/random.c:191-211 | one in-place step of the table and both pointers |
| RandomState.Generator.Random | compat/random.c:191-211 | advances the generator in use and no other table |
| RandomState.Generator.Srandom | compat/random.c:228-246 | the fill loop and the warm-up reach the seeded generator |
| RandomState.Generator.Reseed | compat/random.c:228-246 | seeds the table in use again and touches no other, nor its header |
| RandomState.Generator.InitState | compat/random.c:266-318 | the old table can be restored from its own words; fewer than 8 bytes change nothing but the header |
| RandomState.Generator.SetState | compat/random.c:334-367 | the table named, one the program seeded or any with a header that some call could have left, becomes the one in use with the pointers of its header |
| AggBuffer.SaveAppends | armci/src-gemini/aggregate.c:135-206 | entering a segment in the last descriptor or a new one, with or without a copy of its data, appends exactly that segment to what is pending |
| AggBuffer.PutDataFrame | armci/src-gemini/aggregate.c:174-180 | copied data runs into no descriptor and no earlier copy |
| AggBuffer.WithPtrsAppends | armci/src-gemini/aggregate.c:195-202 | pointers, length and counts entered in the last descriptor add one segment and disturb none |
| AggBuffer.FullIff | armci/src-gemini/aggregate.c:141-157 | what is pending is sent first exactly when there are 256 pointers, or header, descriptors and copied data leave no room in 2048 bytes |
| AggBuffer.SavedShape | armci/src-gemini/aggregate.c:147-204 | a segment of the last descriptor's length shares it, any other takes one more; pointers and copied data grow accordingly |
| Aggregator.PartitionFree | armci/src-gemini/aggregate.c:118-131 | giving a buffer back keeps the two index lists a disjoint partition of {0..k-1} |
| Aggregator.PartitionNew | armci/src-gemini/aggregate.c:98-112 | a fresh index is never already in use |
| Aggregator.BalancedSend | armci/src-gemini/aggregate.c:288-350 | a flush moves segments from pending to sent without loss, repetition or reordering |
| Aggregator.BalancedSave | armci/src-gemini/aggregate.c:186-206 | a save adds to pending what it adds to saved |
| Aggregator.Aggregates.Find | armci/src-gemini/aggregate.c:87-91 | finds the in-use buffer of a handle exactly if it has one |
| Aggregator.Aggregates.GetBufferId | armci/src-gemini/aggregate.c:83-116 | an existing, available or new buffer, or a fatal error exactly when all are in use |
| Aggregator.Aggregates.Send | armci/src-gemini/aggregate.c:305-343 | everything pending on the handle is sent, once, as the PUT or GET it was saved for |
| Aggregator.Aggregates.Complete | armci/src-gemini/aggregate.c:288-350 | afterwards what was sent on the handle is all that was saved on it; with UNSET the buffer is available again |
| Aggregator.Aggregates.UpdateLists | armci/src-gemini/aggregate.c:118-131 | the index moves from the in-use to the available list |
| Aggregator.Aggregates.InitHandle | armci/src-gemini/aggregate.c:61-71 | a new handle is bound to one operation and process; another use of it is fatal |
| Aggregator.Aggregates.Measure | armci/src-gemini/aggregate.c:141-157 | the flush test and the choice between the last descriptor and a new one are those of the specification |
| Aggregator.Aggregates.GetDescriptor | armci/src-gemini/aggregate.c:135-184 | room for one segment, after a flush if there was none |
| Aggregator.Aggregates.Save | armci/src-gemini/aggregate.c:186-206 | on every handle, segments sent followed by segments pending are the segments saved, in order |
| Strided.IndexIsDot | armci/f90/armcif90.c:196-204 | Index times the element size is the dot product of subscripts and strides, on arrays laid out by _array_create |
| Strided.CountIs | armci/f90/armcif90.c:300-310 | the count of a dimension is the number of subscripts the loop from lo to hi visits |
| Strided.NestIsTouched | armci/f90/armcif90.c:360-372 | the general descriptor touches the bytes of the nested loop over subscripts, in its order, for arrays of any strides |
| Strided.FirstLevelJoins | armci/f90/armcif90.c:335-358 | merging a contiguous first dimension into the innermost count changes neither bytes nor order |
| Strided.DescriptorIsNest | armci/f90/armcif90.c:335-372 | for every rank, bounds, strides and positive steps, a descriptor of either shape touches exactly the bytes of the slice, in order, if and only if it starts at the first element and a merged first dimension has no gaps |
| Strided.StartIff | armci/f90/armcif90.c:285-286 | the start computed from extents is the first element if and only if Index times the element size is the dot product of subscripts and strides |
| Strided.GapsMisplace | armci/f90/armcif90.c:277-286 | for a pointer to every second element it is not |
| FarrayCopy.ArrayDescriptor.Create | armci/f90/arraywrap.c:23-92 | extents and strides describe a column-major array without gaps |
| FarrayCopy.IndexOf | armci/f90/armcif90.c:196-204 | the accumulating loop computes the element offset |
| FarrayCopy.CountSlice | armci/f90/armcif90.c:298-310 | counts and unit-step flags of a slice |
| FarrayCopy.Describe | armci/f90/armcif90.c:335-374 | the loops that copy, multiply and shift build the descriptor of the selected shape |
| FarrayCopy.CopyFarrays | armci/f90/armcif90.c:284-384 | rc is -1 exactly when the slices differ in shape; otherwise each side of the transfer touches its slice in nested-loop order if and only if Reached, a test on its bounds, extents and strides, holds |
| FarrayCopy.LaidReached | armci/f90/arraywrap.c:23-92 | Reached holds for every array made by _array_create |
| CpuText.ScanOfDec | armci/src-gemini/armci.c:885-886 | a printed number is read back up to the character that follows it |
| CpuText.ParseUndoesPrint | armci/src-gemini/armci.c:873-941 | parsing what was printed gives the mask back if and only if the mask is not empty |
| CpuText.ReturnsIff | armci/src-gemini/armci.c:901-904 | the loop over a range, adding on 32 bits, ends if and only if the range is empty, or the stride is not 0 and the last cpu is below the greatest number that agrees with the first modulo the stride's largest power-of-two factor |
| CpuText.ParseRendered | armci/src-gemini/armci.c:909-941 | the entries from any cpu on restore that part of the mask |
| CpuMeaning.DecPlaces | armci/src-gemini/armci.c:926-933 | a printed number is its decimal digits |
| CpuMeaning.ScanReads | armci/src-gemini/armci.c:884 | %u skips white space, takes one sign and reads modulo 2^32 up to the first character that is no digit |
| CpuMeaning.ScanFails | armci/src-gemini/armci.c:884 | without a digit there is no number |
| CpuMeaning.VisitsPlain | armci/src-gemini/armci.c:901-904 | where last plus stride does not wrap the loop visits every stride-th cpu from first to last and ends |
| CpuMeaning.RangeVisits | armci/src-gemini/armci.c:901-904 | on 32 bits the loop sets exactly the cpus its variable passes before it exceeds the last |
| CpuMeaning.SingleText | armci/src-gemini/armci.c:884-887 | one number in a token stands for that cpu, in front of any further text |
| CpuMeaning.RangeText | armci/src-gemini/armci.c:888-900 | two numbers stand for the range without stride, whatever follows the comma |
| CpuMeaning.StrideText | armci/src-gemini/armci.c:888-904 | three numbers stand for the range with stride: error if it descends, no return if the loop does not end, else exactly the cpus visited |
| CpuMeaning.BadText | armci/src-gemini/armci.c:884-897 | a token without its first, second or third number is an error |
| CpuMeaning.PrintedRange | armci/src-gemini/armci.c:873-906 | "a-b:s" adds every s-th cpu from a to b, "a-b" every cpu and "a" one, alone or before more text |
| CpuMeaning.ColonBehindComma | armci/src-gemini/armci.c:893-894 | a colon behind the comma is the stride of the second range |
| CpuMeaning.PrintRun | armci/src-gemini/armci.c:925-933 | one run prints as its only cpu, its two cpus or its ends |
| CpuMeaning.PrintSplits | armci/src-gemini/armci.c:909-941 | on either side of a cpu not set the text is that of the part, with a comma between |
| CpuSets.CpusetToCstr | armci/src-gemini/armci.c:909-941 | the loop prints single cpus, pairs and ranges and drops the trailing comma |
| CpuSets.NextToken | armci/src-gemini/armci.c:863-870 | the position after the next separator, or none |
| CpuSets.ReadToken | armci/src-gemini/armci.c:885-898 | first cpu, last cpu and stride of one token, never reading past its comma |
| CpuSets.CstrToCpuset | armci/src-gemini/armci.c:873-906 | the mask and return value of the specification, wrapped ranges included, whatever the mask held before |
| NotifyProtocol.WaitAfterNotify | armci/src-gemini/armci.c:642-702 | in every run completed waits never exceed received, nor received sent: the k-th wait on a pair completes only after its k-th notify |
| NotifyProtocol.DataBeforeWait | armci/src-gemini/armci.c:642-702 | when k waits have completed, all data put before the k-th notify has arrived |
| NotifyProtocol.BlocksIff | armci/src-gemini/armci.c:690-697 | with everything delivered a wait is held up exactly when fewer notifies than waits were made |
| NotifyProtocol.WaitCanEnd | armci/src-gemini/armci.c:690-697 | from any reachable state deliveries alone let a wait complete whose notify was made |
| NotifyArrays.Processes.NotifyProc | armci/src-gemini/armci.c:642-664 | increments and puts the counter, returning the number of notifies made |
| NotifyArrays.Processes.Arrival | armci/src-gemini/armci.c:657-658 | a put that arrives stores the received count of its pair |
| NotifyArrays.Processes.EnterWait | armci/src-gemini/armci.c:684-690 | increments the waited count of the pair |
| NotifyArrays.Processes.PollWait | armci/src-gemini/armci.c:691-702 | goes on waiting exactly while fewer notifies have arrived than waits were made |
| Gemm.ResultIsProduct | LinAlg/lapack+blas/xgemm.c:512-784 | a rejected call keeps C; otherwise each element of the m by n block becomes alpha times its element of op(A) op(B) plus beta times its old value, and rows m to ldc - 1 and later columns stay |
| Gemm.ProductIff | LinAlg/lapack+blas/xgemm.c:410-516 | for leading dimensions with room, C becomes alpha * op(A) * op(B) + beta * C if and only if k is positive, beta is 1 or the block of C is zero |
| Gemm.ProductIffForAll | LinAlg/lapack+blas/xgemm.c:410-516 | it does for every C if and only if k is positive, beta is 1 or the block is empty |
| Gemm.EmptyProductKeepsC | LinAlg/lapack+blas/xgemm.c:513-516 | with k 0 and beta 2 a single element 1 stays 1 where the formula gives 2 |
| Gemm.TransposedFactors | LinAlg/lapack+blas/xgemm.c:588-597 | storing A, B or both transposed, each with a leading dimension of its own and its flag flipped, gives the same C |
| Gemm.TransposedTwice | LinAlg/lapack+blas/xgemm.c:588-597 | transposing the storage twice gives back every element |
| Gemm.CResultIsProduct | LinAlg/lapack+blas/xgemm.c:1084-1261 | the complex result by rows and columns, as for real matrices |
| Gemm.CProductIff | LinAlg/lapack+blas/xgemm.c:894-897 | the exact condition for complex matrices |
| Gemm.ConjugateProduct | LinAlg/lapack+blas/xgemm.c:1090-1097 | with both flags asking for conjugation the product is the conjugate of the plain transposed one |
| GemmMeaning.RejectedMeans | LinAlg/lapack+blas/xgemm.c:512-543 | the argument tests with the flags as characters |
| GemmMeaning.ResultMeans | LinAlg/lapack+blas/xgemm.c:583-784 | stored element i + j * ldc becomes alpha times the plain sum plus beta times itself: 'n' and 'N' take a factor as stored, any other flag transposed |
| GemmMeaning.TimesIdentity | LinAlg/lapack+blas/xgemm.c:583-604 | with the identity for B the block becomes A or A transposed by its flag |
| GemmMeaning.IdentityTimes | LinAlg/lapack+blas/xgemm.c:583-604 | with the identity for A it becomes B or B transposed |
| GemmMeaning.CResultMeans | LinAlg/lapack+blas/xgemm.c:1084-1261 | the same for complex elements by real and imaginary part, conjugated exactly for 'c' and 'C' |
| GemmMeaning.CTimesIdentity | LinAlg/lapack+blas/xgemm.c:1084-1109 | with the identity for B the block becomes A, transposed and conjugated as its flag says |
| GemmMeaning.CIdentityTimes | LinAlg/lapack+blas/xgemm.c:1084-1109 | with the identity for A it becomes B, transposed and conjugated as its flag says |
| GemmLoops.Reject | LinAlg/lapack+blas/xgemm.c:512-543 | the argument tests reject exactly the shapes of the specification |
| GemmLoops.InnerProduct | LinAlg/lapack+blas/xgemm.c:691-697 | the running positions walk a row of op(A) and a column of op(B) |
| GemmLoops.Element | LinAlg/lapack+blas/xgemm.c:645-784 | every special case of alpha and beta gives the general value |
| GemmLoops.Dgemm | LinAlg/lapack+blas/xgemm.c:462-788 | C becomes the specified result in place; rejected and no-op calls leave it alone |
| GemmLoops.CInnerProduct | LinAlg/lapack+blas/xgemm.c:1084-1109 | the complex inner loop, conjugating exactly for c and C |
| GemmLoops.Zgemm | LinAlg/lapack+blas/xgemm.c:851-1261 | the same for complex matrices stored as pairs |

## Left out

- MaAllocator.Allocator.FreeHeapPiece: after a partial free whose kept elements do not fit, no later call is claimed to do anything in particular; the bytes with which a guard replaces a descriptor are not interpreted.
- MaTiling.FreePieceKeepsTiling: on values only, where no guard can overwrite a length; when memory follows is stated by MaPieces.PieceMemory.
- MaRuns.ApplyKeeps: likewise on values only.
- MaMeaning.PieceEffect: likewise on values only.
- RandomGen.StreamIsSolo: leaves out streams of a table on which setstate is called while it is in use and moves its pointers; that call is characterised separately.
- RandomState.Generator.SetState: requires a header that some call could have left; a negative header (the "munged" message, after which the table is switched to all the same) or a position past the end of the table is undefined.
- CpuSets.CstrToCpuset: numerals of more than 32 bits are reduced modulo 2^32, which C leaves undefined; a call that does not return is a result of its own.
- FarrayCopy.CopyFarrays: assumes ascending, nonempty slices with positive steps, as the source comment does; the Fortran descriptor library that supplies bounds, extents and strides is not part of this model.
- Aggregator.Aggregates.Save: one segment at a time; saving vector (giov) and strided requests is left out, where the count of what remains is not right in general. A copied put longer than an empty buffer is excluded; only single values of at most 8 bytes are copied (armci/src-gemini/strided.c:1609-1617).
- Aggregator.Aggregates.GetDescriptor: excludes a copied put longer than an empty buffer, as Save does.
- BufAllocator.Buffers.Free: writes of the program into block headers are not modelled; a token check on memory that holds no header counts as failed.
- GemmLoops.Dgemm: real numbers stand for floating point, so rounding, NaN and infinities are not modelled; the row-major branch, which the constant order never selects, is left out.
- MA statistics, tracing, printing, block names, error text and fatal errors: a failed call returns failure.
- MA_verify_allocator_stuff, MA_get_index, MA_get_next_memhandle and the other read-only queries beyond the heap inquiries: easy members.
- The stack inquiries of MA: they lay the block out upward although MA_push_stack lays it out downward, so they predict nothing exactly.
- MA_alloc_get and MA_push_get: two modelled calls in a row.
- Overflow of sizes and addresses in MA and of table sizes, tags and notify counters: integers are unbounded there.
- random at widths where a shift of a negative word is not arithmetic: only the bits that survive the mask matter, and they agree.
- Whether randtbl holds what initstate(1, randtbl, 128) would compute: its words are a parameter.
- ARMCI_NbPut_farrays, which repeats ARMCI_Put_farrays, and ARMCI_NbGet_farrays, which uses an unset descriptor.
- The single-precision routines of xgemm.c: the same code at another precision.
- Portals, onesided and fence code, locks, checkpointing, start-up and shutdown: their guarantees rest on network libraries outside the repository.
