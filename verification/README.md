# Verification of il2cpp and its collector

This project models the hard parts of il2cpp, an ahead-of-time compiler from CIL to C++, and of the garbage collector
its runtime is built on, and proves properties of the models. `dafny verify dfyconfig.toml` checks all of it.

Code that works in place is modelled by classes, arrays and methods with loops; each method is proved against a
specification on values, and the results about whole runs are proved about the specification.

**The collector's heap.** `Blocks` says what a heap is: runs of blocks, free or used, that tile the memory.
`BlockIndex`, `FreeLists`, `HeapShape` and `Totals` add the views the collector keeps of it: the two-level index with
headers and backward jump counts, the doubly linked lists of free runs by size, and the byte counters. `HeapView` puts
them together, `HeapSteps`, `AllocSteps`, `GrowSteps` and `CheckSteps` prove single steps, `BlackList` and `Search`
say which run an allocation takes, `Choices` says the same block by block and without their notions, and `Heap` is the
class with the operations themselves. `HeapRuns` proves what holds after every run of operations, and `HeapClients`
has a client whose calls of the class are such runs, so that all views of the heap agree after every run of calls.
`BackGraph` and `FreeListBuild` are two smaller parts of the collector.

**The compiler.** `Cil` gives a subset of CIL a small-step semantics on an evaluation stack, `SlotCode` gives the
emitted C++ one on typed temporaries, and `Translation` says what is emitted for an instruction. Both have their own
integer arithmetic: `Cil` that of the standard, `SlotCode` that of C++ on the types of its operands, with casts,
conversions and undefined operations; only floating point operations are parameters. `Operators` compares the two.
`Simulation` and `CompiledRuns` prove that both machines do the same, step by step. `MethodGenerator` is the class
with the worklist that emits the code; it is proved to stop and to emit that translation for exactly the reachable
instructions. `ArrayIndex` is the code emitted for the element access of multidimensional arrays.

**Dispatch.** `Overriding` states the override rules for chains of classes without any table (section II.10.3 of
ECMA-335); `MethodTable` builds the tables class by class and is proved to agree with the rules.

**Analysis and linking.** `Reaching` and `TypeManager` are the search for all methods a program can run, proved to
find the least closed set. `DerivedTypes` is the incrementally maintained closure of the subtype relation. `Units` and
`Merger` merge the generated units into few files; `DependOrders` is about the words that hold their orders, and
`Includes` about the text and the includes of the result.

**The runtime.** `CallOnce` is the once-only call of a type initialiser, as a protocol of interleaved steps, and
`Roots` the registration of static variables as roots.

Properties that are false of the code as it stands, each with its condition:

- Comparing an int32 with a native int on its right cuts the native int to 32 bits. `CompareRightWhen` shows that the
  emitted comparisons are right for all operands if and only if that case is left out; the simulation leaves it out.
- Arithmetic on native ints is unsigned, so `div` and `rem` are wrong for them; `div.un` and `rem.un` are wrong for an
  int32 with a native int, which is not sign-extended; `rem` of floats rounds the quotient to the nearest integer (5
  `rem` 3 gives -1); `add`, `sub` and `rem` of a float32 with a float64 do not compile. `BinaryRightWhen` shows that
  the emitted arithmetic is right for all safe operands if and only if the types are none of these;
  `WrongOperandsFail` has operands for each. The simulation leaves these types out.
- For a divisor of 0 and for the least integer divided by -1 the standard demands an exception, and the code is
  undefined; it is undefined too for int32 and int64 products that do not fit, which the standard wraps.
  `MethodSimulated` shows that the code is undefined exactly when the stack machine meets such operands (`Unsafe`).
- Depend orders are words of 64 bits and may double from unit to unit. `DeclaredExactly` shows that for acyclic maps
  of at most k units sorting by them puts declarations before uses if and only if k is at most 64; in `MisplaceTower`
  the merging of 65 units puts one before another whose declarations it needs.
- Merging fails to look up a dependency of a single unit, which is never optimised, unless it depends on itself at
  most or has no code and is dropped: `Merge` succeeds if and only if there are more units or that holds (`LoneFits`).
- A class with two newslot methods of one signature and no reuseslot method has no table: `TwoNewSlots`.
  `ResolveTable` fails exactly for classes of the kind where no slot can be applied.
- A root that is a virtual method may be skipped by the analysis: `LoseRoot` runs it to an end where a root is left
  out, and `KeepRoots` does not with the same roots in the other order. A root is passed over when roots before it
  that are not passed over themselves call it virtually and none of them calls it directly (`PassedOver`); the others
  are firm. `ResolveAll` finds the least closed sets for the firm roots, and these are the least for all roots if and
  only if every set closed for the firm roots holds all roots.
- The offset of an index of a multidimensional array is a difference of 32-bit integers, and overflows in a dimension
  with a negative lower bound and a size above 2^31. `IndexRightWhen` shows that the index is right for all tuples in
  range if and only if there is no such dimension.
- Roots registered in common ranges cover more than the variables exactly when two variables share an address:
  `CommitRoots`.

## Model

| member | source | states |
|---|---|---|
| `HeapRuns.RunGood` | runtime/bdwgc/allchblk.c:665-910 | after every run of additions, allocations and releases, in any order and of any length, the runs tile the heap memory, no two free runs touch, and the used runs are exactly the live objects and the dropped blocks; HeapClients.Client makes such runs with the operations of the heap |
| `HeapClients.Client.constructor` | runtime/bdwgc/allchblk.c:665-910 | a client of an empty heap, which is where its calls, none so far, have led |
| `HeapClients.Client.Add` | runtime/bdwgc/alloc.c:1168-1225 | giving memory to the heap makes the step of the run relation for the section that was added, or none when no section was; with a section slot left, exactly the given blocks other than the first two and the last of the address space are in the heap afterwards |
| `HeapClients.Client.Alloc` | runtime/bdwgc/allchblk.c:601-655 | an allocation makes the step of the run relation, for requests of any size above zero, those beyond the sign bit included: the objects of the client are those before and the one returned |
| `HeapClients.Client.Dealloc` | runtime/bdwgc/allchblk.c:851-910 | each live object can be given back, with nothing else required: the step of the run relation takes just that object away |
| `HeapClients.Client.NowGood` | runtime/bdwgc/allchblk.c:665-910 | so whatever calls a client has made, the tiling of the heap is coalesced and holds exactly its live objects and the dropped blocks |
| `HeapClients.Client.ViewsAgree` | runtime/bdwgc/allchblk.c:665-910 | and then the index agrees with the tiling block by block, the lists are well formed and hold exactly the free runs, each on the list for its size, the counters are the sums of their lists, used and free bytes add up to the heap size, and the sections make up the memory |
| `HeapRuns.NewObjectApart` | runtime/bdwgc/allchblk.c:799-841 | a block returned by an allocation lies inside the heap and overlaps no object that was live |
| `HeapRuns.NewBytesApart` | runtime/bdwgc/allchblk.c:799-841 | so the bytes of the new object and those of any live one do not overlap |
| `HeapRuns.FreeUndoesAlloc` | runtime/bdwgc/allchblk.c:851-910 | freeing the block that was just allocated leaves the tiling and the live objects as they were, except for the blocks the search dropped; with none dropped it is the very state before the allocation |
| `HeapRuns.HistoryForgotten` | runtime/bdwgc/allchblk.c:851-910 | two heaps with the same memory, live objects and dropped blocks have the same free runs, whatever runs of operations led to them |
| `HeapRuns.AllocGood` | runtime/bdwgc/allchblk.c:665-842 | an allocation keeps the run invariant, and its block was neither live nor dropped before and has the size asked for |
| `HeapRuns.FreeGood` | runtime/bdwgc/allchblk.c:851-910 | a release keeps the run invariant: only that object disappears from the used runs |
| `HeapRuns.AddGood` | runtime/bdwgc/alloc.c:1168-1225 | adding a section keeps the run invariant: it adds free memory only, joined to what is free next to it |
| `HeapRuns.DropsAccounted` | runtime/bdwgc/allchblk.c:755-797 | dropping listed runs keeps every used run and turns only free memory into used runs of one block |
| `Blocks.FreeRunsDetermined` | runtime/bdwgc/allchblk.c:844-850 | the free runs of a coalesced tiling are determined by which blocks are free |
| `Blocks.ReleaseUndoesCarve` | runtime/bdwgc/allchblk.c:515-585 | carving any piece out of a free run, from its front, its end or its middle, and releasing it gives back the same tiling |
| `Blocks.ReleaseFrees` | runtime/bdwgc/allchblk.c:851-910 | a release makes exactly the blocks of that run free; all other used runs stay as they are |
| `Blocks.ReleaseCoalesced` | runtime/bdwgc/allchblk.c:881-903 | a release leaves no two free runs next to each other |
| `Blocks.CarveCoalesced` | runtime/bdwgc/allchblk.c:515-585 | an allocation leaves no two free runs next to each other |
| `Blocks.ShatterCoalesced` | runtime/bdwgc/allchblk.c:765-788 | dropping a run leaves no two free runs next to each other |
| `Blocks.CutTiled` | runtime/bdwgc/allchblk.c:515-585 | cutting a run in two keeps the tiling of the same memory |
| `Blocks.JoinTiled` | runtime/bdwgc/allchblk.c:881-903 | joining two neighbouring runs keeps the tiling of the same memory |
| `Blocks.ShatterTiled` | runtime/bdwgc/allchblk.c:765-788 | replacing a run by runs of one block keeps the tiling of the same memory |
| `Blocks.FreeEndingAt` | runtime/bdwgc/allchblk.c:321-352 | 0, or the one free run that ends just before h; 0 only when there is none |
| `BlockIndexes.BlockIndex.GetIndex` | runtime/bdwgc/headers.c:210-256 | a bottom index for the block exists afterwards, linked at its place in the address order of both directions; no cell changes |
| `BlockIndexes.BlockIndex.FindPlace` | runtime/bdwgc/headers.c:239-254 | the existing bottom indices just above and just below the new one |
| `BlockIndexes.InsertedChained` | runtime/bdwgc/headers.c:239-254 | linking a bottom index between its neighbours keeps both lists complete, ordered and inverse to each other |
| `BlockIndexes.BlockIndex.InstallHeader` | runtime/bdwgc/headers.c:261-274 | the block maps to a header; all other cells stay |
| `BlockIndexes.BlockIndex.InstallCounts` | runtime/bdwgc/headers.c:277-291 | every block inside the run maps to its distance from the start, at most MAX_JUMP; the start and all other cells stay |
| `BlockIndexes.BlockIndex.RemoveHeader` | runtime/bdwgc/headers.c:294-300 | the block maps to nil; all other cells stay |
| `BlockIndexes.BlockIndex.RemoveCounts` | runtime/bdwgc/headers.c:303-309 | the blocks inside the run map to nil, and no others, even where no bottom index exists |
| `BlockIndexes.BlockIndex.ApplyToAllBlocks` | runtime/bdwgc/headers.c:313-337 | visits each used block start exactly once, and nothing else, although it jumps backwards through every bottom index |
| `BlockIndexes.BlockIndex.NextUsedBlock` | runtime/bdwgc/headers.c:341-372 | the lowest used block start at or above h, or 0 only if there is none, across bottom indices |
| `BlockIndexes.BlockIndex.PrevBlock` | runtime/bdwgc/headers.c:377-406 | the highest block start, free or used, at or below h, or 0 only if there is none, across bottom indices |
| `HeapShape.AgreesSkips` | runtime/bdwgc/headers.c:277-291 | in an index that agrees with a tiling, every jump count leads to a cell that is not nil, in the same run, so backward jumps end at the first block |
| `HeapSteps.JumpStays` | runtime/bdwgc/headers.c:277-291 | a jump count is found inside used runs only and leads back inside the same run |
| `HeapShape.CutAgrees` | runtime/bdwgc/allchblk.c:556-585 | after a cut the index agrees with the two runs block by block: header at each start, nil inside the free runs |
| `HeapShape.JoinAgrees` | runtime/bdwgc/allchblk.c:881-903 | after a join the index agrees with the joined run: the second header is gone |
| `HeapShape.UseAgrees` | runtime/bdwgc/allchblk.c:814-824 | after an allocation the index agrees with the used run: header at the start, jump count exactly inside |
| `HeapShape.FreeAgrees` | runtime/bdwgc/allchblk.c:857-877 | after the counts of a run are removed the index agrees with the free run |
| `HeapShape.ShatterAgrees` | runtime/bdwgc/allchblk.c:777-788 | after a drop every block of the run has its own header in the index |
| `FreeLists.ListFor` | runtime/bdwgc/allchblk.c:84-91 | the list for a size is one of the N_HBLK_FLS + 1 lists |
| `FreeLists.ListForOrder` | runtime/bdwgc/allchblk.c:84-91 | larger runs are never on an earlier list, and the lists below UNIQUE_THRESHOLD hold one size each |
| `FreeLists.ListForSizes` | runtime/bdwgc/allchblk.c:84-91 | which sizes each list holds: one, then FL_COMPRESSION each, and on the last list all from HUGE_THRESHOLD on |
| `FreeLists.UnlinkedLinked` | runtime/bdwgc/allchblk.c:297-317 | unlinking a run leaves all lists well formed in both directions, without it |
| `FreeLists.PushedLinked` | runtime/bdwgc/allchblk.c:356-385 | adding a run in front leaves all lists well formed in both directions, with it on exactly that list |
| `FreeLists.ReplacedLinked` | runtime/bdwgc/allchblk.c:556-585 | putting the split-off run into the place of the old one leaves all lists well formed |
| `FreeLists.NeighboursMatch` | runtime/bdwgc/allchblk.c:297-317 | next and prev links are inverse to each other |
| `Totals.BytesUnlink` | runtime/bdwgc/allchblk.c:297-317 | the counter of the list stays the sum of its runs when one leaves, and does not go below zero |
| `Totals.BytesPush` | runtime/bdwgc/allchblk.c:356-385 | the counter of the list stays the sum of its runs when one joins |
| `Totals.SumOfAllLists` | runtime/bdwgc/allchblk.c:104-119 | when the lists hold exactly the free runs, their counters add up to the free memory |
| `Totals.TilingSize` | runtime/bdwgc/checksums.c:158-172 | the lengths of all runs add up to the size of the heap |
| `Totals.UsedAndFree` | runtime/bdwgc/checksums.c:158-172 | used and free lengths together are the size of the heap |
| `Totals.CarveTotal` | runtime/bdwgc/allchblk.c:839 | an allocation takes exactly the blocks it needs from the free total |
| `Totals.ReleaseTotal` | runtime/bdwgc/allchblk.c:908 | a release, merges and all, adds exactly the released blocks to the free total |
| `Totals.ShatterTotal` | runtime/bdwgc/allchblk.c:774 | a drop takes exactly the run from the free total |
| `HeapSteps.EndingAtHeader` | runtime/bdwgc/allchblk.c:327-352 | when the block before h belongs to a run, that run decides the answer |
| `HeapSteps.EndingAtNil` | runtime/bdwgc/allchblk.c:327-352 | when the block before h is nil, the closest block start below decides, if it reaches to h |
| `HeapSteps.SamePrev` | runtime/bdwgc/allchblk.c:880-903 | looking up the free run before h before or after merging with the run behind h makes no difference |
| `HeapSteps.PrevDecides` | runtime/bdwgc/allchblk.c:889-903 | the test of the code, overflow check included, joins the previous run exactly when it is free |
| `HeapSteps.ReleaseSettles` | runtime/bdwgc/allchblk.c:851-910 | after the last step of a release all views of the heap agree again |
| `AllocSteps.SplitBlockChosen` | runtime/bdwgc/allchblk.c:556-585 | a split parks the second part on the list of the whole run; everything else agrees, and the part can be taken from there |
| `AllocSteps.FirstPartTakeable` | runtime/bdwgc/allchblk.c:515-555 | the rest goes on the list for its own size; what is left is on no list and can be taken |
| `AllocSteps.TakenSettled` | runtime/bdwgc/allchblk.c:814-841 | with counts and header set, the taken run is a used one and all views agree again |
| `AllocSteps.CarveSettles` | runtime/bdwgc/allchblk.c:665-842 | the whole allocation, split included, leaves every free run on the list of its size |
| `AllocSteps.DropSettles` | runtime/bdwgc/allchblk.c:755-797 | a drop leaves every free run on the list of its size |
| `AllocSteps.ShatterFree` | runtime/bdwgc/allchblk.c:755-797 | runs that are free after drops were free, and the same, before them |
| `GrowSteps.SectionsGrow` | runtime/bdwgc/alloc.c:1197-1203 | the sections make up the heap memory, without overlap, after one more is added |
| `GrowSteps.GrownReleasable` | runtime/bdwgc/alloc.c:1189-1202 | a new section with a header but no counts is ready to be released like a used run |
| `BlackLists.IsBlackListed` | runtime/bdwgc/blacklst.c:229-258 | 0 exactly when no block of the run is listed, as a block-by-block scan would find; otherwise the block after the first listed one, although whole zero words of both tables are skipped and the hash wraps around |
| `BlackLists.WordIsClear` | runtime/bdwgc/blacklst.c:245-254 | a zero word of both tables means that no block up to the end of the word is listed |
| `BlackLists.HitsBefore` | runtime/bdwgc/blacklst.c:221-258 | when the block before r is listed, the object fits at none of the places before r |
| `Searches.BlocksForChecked` | runtime/bdwgc/include/private/gc_priv.h:1094-1095 | saturating sizes: the product with the block size stays below the sign bit exactly for sizes that fit, and then it is the number of blocks |
| `Searches.FirstClear` | runtime/bdwgc/allchblk.c:705-714 | the first place in the run at which the object avoids listed blocks, or one too far to the right when there is none |
| `Searches.ChoosePlace` | runtime/bdwgc/allchblk.c:701-757 | passes a run over exactly when it is not acceptable; otherwise the first place that is not listed, or the start when the request is so large that listing is ignored |
| `Searches.SuitsAcceptable` | runtime/bdwgc/allchblk.c:684-699 | a better next block is itself acceptable, so going on for it loses nothing |
| `Searches.PassMovesOn` | runtime/bdwgc/allchblk.c:676-700 | going on keeps: nothing acceptable has been left behind, unless the next block suits |
| `Searches.DropMovesOn` | runtime/bdwgc/allchblk.c:765-794 | going on behind the predecessor of a dropped block keeps that too |
| `Searches.FullSearch` | runtime/bdwgc/allchblk.c:601-655 | with split limit N_HBLK_FLS, a failed allocation leaves no acceptable free run on any list, black lists or not |
| `Searches.LargeEnough` | runtime/bdwgc/allchblk.c:701-757 | without listed blocks a free run is acceptable exactly when it is large enough, and nothing may be dropped |
| `Searches.FailsOnlyWhenFull` | runtime/bdwgc/allchblk.c:601-655 | with split limit N_HBLK_FLS and no listed block in the heap, an allocation drops nothing, and fails if and only if every free run is too small |
| `Choices.BlocksForLeast` | runtime/bdwgc/include/private/gc_priv.h:1094-1095 | the blocks for an object hold it, and one less would not |
| `Choices.PlacedClear` | runtime/bdwgc/allchblk.c:701-757 | block by block: a request that minds black lists goes to the first place in the run at which it starts at no listed block and covers none (none with its first block, if pointers into the rest do not count); or to the start, when request and rest exceed the spacing and every place is listed |
| `Choices.PlacedFirst` | runtime/bdwgc/allchblk.c:701-757 | any other request goes to the start of the run |
| `Choices.AllocatedClear` | runtime/bdwgc/allchblk.c:601-655 | so is the block that an allocation returns, in the free run it was taken from |
| `Choices.FailedClear` | runtime/bdwgc/allchblk.c:601-655 | when a search of all lists fails, every large enough free run has a listed block at each place, and is not so large that this is ignored |
| `Choices.DroppableExactly` | runtime/bdwgc/allchblk.c:755-757 | a run can be dropped if and only if all its blocks are listed, the request is of one block and minds that, and leaks are not being searched for |
| `Choices.BetterExactly` | runtime/bdwgc/allchblk.c:684-699 | a run is passed over for the next one exactly when that is large enough, smaller, and has no listed block among the first ones |
| `Choices.CandidateExactly` | runtime/bdwgc/allchblk.c:676-765 | the runs that count towards a drop: listed throughout, of a size that may be split if need be, not passed over for a better one, and not so large that the lists are ignored |
| `Choices.DropRight` | runtime/bdwgc/allchblk.c:765-794 | going on after a drop keeps: every run before the current one is not acceptable or has a better one next |
| `Choices.StillPassable` | runtime/bdwgc/allchblk.c:765-794 | no run was passed over for the sake of one that is dropped later |
| `Choices.EnoughLarge` | runtime/bdwgc/allchblk.c:70-81 | the bytes on the lists from i on are those of the free runs of their sizes |
| `Choices.OneTick` | runtime/bdwgc/allchblk.c:758-765 | with a counter of 32 bits that wraps around, every fourth tick drops a run |
| `CheckSteps.NextOnList` | runtime/bdwgc/allchblk.c:104-119 | walking one link further adds exactly the run just passed |
| `CheckSteps.UsedCounted` | runtime/bdwgc/checksums.c:158-172 | visiting each used block once adds up to the used memory |
| `Heaps.Heap.constructor` | runtime/bdwgc/alloc.c:1168-1175 | the empty heap satisfies the invariant of all operations |
| `Heaps.Heap.RemoveFromFlAt` | runtime/bdwgc/allchblk.c:297-317 | links, head and counter of list i are those without h; nothing else changes |
| `Heaps.Heap.AddToFl` | runtime/bdwgc/allchblk.c:356-385 | h is the head of the list for its size, its counter grows, and h is marked free; nothing else changes |
| `Heaps.Heap.FreeBlockEndingAt` | runtime/bdwgc/allchblk.c:327-352 | finds the free run that ends just before h, by jump counts or by the search for the previous block, or 0 if there is none |
| `Heaps.Heap.Coalesce` | runtime/bdwgc/allchblk.c:881-888 | the listed one of two neighbouring free runs leaves its list and both become one run |
| `Heaps.Heap.MergeWithNext` | runtime/bdwgc/allchblk.c:881-888 | joins the run behind exactly when there is a free one |
| `Heaps.Heap.MergeWithPrev` | runtime/bdwgc/allchblk.c:889-903 | joins the run before exactly when there is a free one |
| `Heaps.Heap.FreeHblk` | runtime/bdwgc/allchblk.c:851-910 | the run and its free neighbours become one free run on the list of its size; GC_large_free_bytes grows by the size of the run; index, lists, counters and tiling agree |
| `Heaps.Heap.SplitBlock` | runtime/bdwgc/allchblk.c:556-585 | the run is cut in two; the second part takes the place of the whole on its list, the first goes on the list for its size |
| `Heaps.Heap.GetFirstPart` | runtime/bdwgc/allchblk.c:515-555 | the run leaves list i, perhaps the wrong one; its first part is ready to be taken and the rest is on the list for its size |
| `Heaps.Heap.SetupBlock` | runtime/bdwgc/allchblk.c:816-824 | counts and header make the run the home of the object |
| `Heaps.Heap.Place` | runtime/bdwgc/allchblk.c:717-741 | splits off what is in front and what is behind, and takes the part in the middle; GC_large_free_bytes shrinks by exactly that part |
| `Heaps.Heap.InstallSingles` | runtime/bdwgc/allchblk.c:777-788 | each block of the run gets the header of a used block of its own; other cells stay |
| `Heaps.Heap.DropBlock` | runtime/bdwgc/allchblk.c:765-794 | the run becomes used blocks of one block each; the result is its predecessor in the list, or 0 |
| `Heaps.Heap.Consider` | runtime/bdwgc/allchblk.c:677-797 | pass, take or drop: as the black lists, the next block and the settings demand; every fourth candidate is dropped, by a counter of 32 bits |
| `Heaps.Heap.AllochblkNth` | runtime/bdwgc/allchblk.c:665-842 | takes the first possible place of the first run of list n that is acceptable and has no better one next, after dropping droppable runs only, one at every fourth that counts; returns 0 only when nothing acceptable is left on the list; all views agree |
| `Heaps.Heap.EnoughLargeBytesLeft` | runtime/bdwgc/allchblk.c:70-81 | the last list from which the large bytes suffice, or 0 |
| `Heaps.Heap.SplitLimit` | runtime/bdwgc/allchblk.c:623-646 | all lists, none, or those from which enough large bytes are left |
| `Heaps.Heap.Allochblk` | runtime/bdwgc/allchblk.c:601-655 | first an exact search of the list for the size, then all lists up to the limit in turn: the block comes from the first list with an acceptable run, and there from the first run without a better one next; the limit is all lists, none, or the last from which the free bytes left by the exact search suffice; one run is dropped at every fourth that counts; sizes beyond the sign bit change nothing and give 0 |
| `Heaps.Heap.AddToHeap` | runtime/bdwgc/alloc.c:1168-1225 | with a section slot left, exactly the given blocks other than the first two and the last of the address space are added, all of them if none of these is among them, and nothing when there are no others; what is added becomes a section and free memory, joined to its neighbours; sections, heap size and all views agree |
| `Heaps.Heap.Usable` | runtime/bdwgc/alloc.c:1176-1188 | exactly the given blocks other than the first two and the last of the address space |
| `Heaps.Heap.ComputeLargeFreeBytes` | runtime/bdwgc/allchblk.c:104-119 | the sum over all lists is GC_large_free_bytes |
| `Heaps.Heap.CheckBlocks` | runtime/bdwgc/checksums.c:158-172 | used and free bytes always add up to the heap size, so the check never fails |
| `CompiledRuns.MethodSimulated` | il2cpp/MethodGenerator.cs:376-517 | for consistently typed CIL and any number of steps: the emitted code meets an undefined operation exactly when the stack machine has met operands that are unsafe for the C++ operator; otherwise it returns exactly when the stack machine returns, with the same value, and the stack machine neither throws nor gets stuck; loops, joins and switches included |
| `CompiledRuns.RunSimulated` | il2cpp/MethodGenerator.cs:402-417 | after every number of steps without an undefined operation both stand at the same instruction, temporary (i, type of stack[i]) holds stack[i], and arguments and locals agree |
| `CompiledRuns.StepSimulated` | il2cpp/MethodGenerator.cs:1185-1399 | one step of the emitted code does what one step of the stack machine does, for every instruction of the subset, or is undefined, exactly for unsafe operands |
| `CompiledRuns.DupStep` | il2cpp/MethodGenerator.cs:1782-1789 | dup |
| `CompiledRuns.LdcStep` | il2cpp/MethodGenerator.cs:1799-1803 | constants |
| `CompiledRuns.LdargStep` | il2cpp/MethodGenerator.cs:1812-1819 | ldarg, with the widening of small integers |
| `CompiledRuns.StargStep` | il2cpp/MethodGenerator.cs:1821-1828 | starg, with the truncation to the type of the argument |
| `CompiledRuns.LdlocStep` | il2cpp/MethodGenerator.cs:1830-1837 | ldloc |
| `CompiledRuns.StlocStep` | il2cpp/MethodGenerator.cs:1839-1846 | stloc |
| `CompiledRuns.RetStep` | il2cpp/MethodGenerator.cs:2257-2267 | ret: both return the value truncated to the result type |
| `CompiledRuns.BrBoolStep` | il2cpp/MethodGenerator.cs:1848-1851 | brtrue and brfalse: the test against zero decides alike |
| `CompiledRuns.BrCompareStep` | il2cpp/MethodGenerator.cs:1370-1391 | compare-and-branch: both take the same way |
| `CompiledRuns.CompareStep` | il2cpp/MethodGenerator.cs:1393-1399 | compare: both push 1 or 0 alike |
| `CompiledRuns.SwitchStep` | il2cpp/MethodGenerator.cs:1853-1875 | switch: both take the same target, and fall through for a selector out of range |
| `CompiledRuns.BinaryStep` | il2cpp/MethodGenerator.cs:2084-2172 | arithmetic and bitwise instructions: the emitted expression, with its casts, conversions and formulas in C++ types, gives the temporary the value that the instruction pushes, and is undefined exactly for unsafe operands |
| `Operators.BinaryRightWhen` | il2cpp/MethodGenerator.cs:2084-2172 | the emitted arithmetic is right for all safe operands of two types if and only if these are none of the wrong ones: div and rem with a native int, div.un and rem.un of different widths, rem of floats, add, sub and rem of floats of different precisions |
| `Operators.BinaryExact` | il2cpp/MethodGenerator.cs:2084-2172 | for all other types: integer results are those of the standard modulo the width, signed and unsigned, and the code is undefined just for a divisor of 0, the least integer divided by -1, and an int32 or int64 product that does not fit |
| `Operators.WrongOperandsFail` | il2cpp/MethodGenerator.cs:2084-2172 | operands for each of the wrong types and instructions for which the code gives another value or does not compile |
| `Operators.NativeFails` | il2cpp/MethodGenerator.cs:2153-2172 | native ints have unsigned temporaries and are divided without sign: operands for which div and rem differ |
| `Operators.MixedQuotientFails` | il2cpp/MethodGenerator.cs:2153-2172 | div.un of an int32 and a native int: the int32 is not sign-extended first, and operands for which that shows |
| `Operators.MixedRemainderFails` | il2cpp/MethodGenerator.cs:2110-2130 | the same of rem.un |
| `Operators.FloatsFail` | runtime/il2cpp.cpp:242-250 | rem of floats rounds the quotient to the nearest integer, and floats of different precisions do not compile |
| `Operators.RemainderFormula` | il2cpp/MethodGenerator.cs:2110-2130 | the emitted a - b * (a / b), each operation in the unsigned type, gives the unsigned remainder |
| `Operators.TablesAgree` | il2cpp/MethodGenerator.cs:3179-3275 | the table of valid operands is that of the standard (section III.1.5 of ECMA-335), except that it takes floats for div.un and rem.un as well |
| `CompiledRuns.TestInFrame` | il2cpp/MethodGenerator.cs:1930-2053 | the emitted condition, reading its slots after the pops, holds exactly when the comparison holds of the two topmost values |
| `CompiledRuns.HandlerStarts` | il2cpp/MethodGenerator.cs:386-400 | a handler entered with the exception object in its temporary starts out in agreement |
| `Simulation.CompareExact` | il2cpp/MethodGenerator.cs:1930-2053 | every comparison of the subset, signed, unsigned or unordered, with its casts and negations, holds of the slots exactly when it holds of the values |
| `Simulation.CompareRightWhen` | il2cpp/MethodGenerator.cs:1930-2053 | the emitted comparison is right for all operands if and only if it does not compare an int32 on the left with a native int on the right |
| `Simulation.WrongOperandsDiffer` | il2cpp/MethodGenerator.cs:1930-2053 | operands for each comparison for which that case goes wrong |
| `Simulation.TempHolds` | il2cpp/MethodGenerator.cs:2986-3033 | assigning a value to the temporary for its stack type does not change it |
| `Simulation.TempRead` | il2cpp/MethodGenerator.cs:2986-3033 | different values of a stack type are different in the temporary: what it holds determines the value |
| `Simulation.VarLoads` | il2cpp/MethodGenerator.cs:1830-1837 | reading a variable of any type into its temporary gives the value that loading it pushes |
| `Simulation.VarStores` | il2cpp/MethodGenerator.cs:1839-1846 | assigning a temporary to a variable of any type stores what the store instruction stores |
| `Cil.StoredHasType` | il2cpp/MethodGenerator.cs:2986-3033 | what a variable holds has the stack type that loading it pushes |
| `Translation.ReachableInside` | il2cpp/MethodGenerator.cs:402-417 | a set that holds the entry and the handler starts and is closed under control flow holds every reachable instruction |
| `Translation.ReachableTyped` | il2cpp/MethodGenerator.cs:1067-1183 | every reachable instruction has a stack shape |
| `MethodGenerators.MethodGenerator.constructor` | il2cpp/MethodGenerator.cs:183-187 | nothing generated, declared or queued |
| `MethodGenerators.MethodGenerator.AddSlotMap` | il2cpp/MethodGenerator.cs:240-248 | the slot is declared besides those declared before |
| `MethodGenerators.MethodGenerator.Push` | il2cpp/MethodGenerator.cs:196-203 | the new top is named by its depth and type, and declared |
| `MethodGenerators.MethodGenerator.Pop` | il2cpp/MethodGenerator.cs:205-211 | the top slot, off the stack |
| `MethodGenerators.MethodGenerator.PopTwo` | il2cpp/MethodGenerator.cs:213-219 | the two topmost slots, the lower one first |
| `MethodGenerators.MethodGenerator.GenDup` | il2cpp/MethodGenerator.cs:1782-1789 | emits the translation of dup, and fails only on an empty stack |
| `MethodGenerators.MethodGenerator.GenLoad` | il2cpp/MethodGenerator.cs:1791-1803 | emits one assignment to the new top |
| `MethodGenerators.MethodGenerator.GenStore` | il2cpp/MethodGenerator.cs:1821-1846 | emits one assignment from the top |
| `MethodGenerators.MethodGenerator.GenCompareCond` | il2cpp/MethodGenerator.cs:1930-2053 | the condition for every comparison and pair of stack types, or none exactly when the pair is not valid |
| `MethodGenerators.MethodGenerator.GenCompare` | il2cpp/MethodGenerator.cs:1393-1399 | emits the assignment of the condition |
| `MethodGenerators.MethodGenerator.GenBrCompare` | il2cpp/MethodGenerator.cs:1370-1391 | emits the jump under the condition |
| `MethodGenerators.MethodGenerator.GenBinary` | il2cpp/MethodGenerator.cs:2084-2172 | emits the operation with its casts, its formula or its runtime function, with the result type of the pair; fails exactly when the pair is not valid |
| `MethodGenerators.MethodGenerator.GenOperands` | il2cpp/MethodGenerator.cs:2153-2172 | the two operands, the lower one first, and the slot of the result, declared; none exactly when the pair is not valid |
| `MethodGenerators.MethodGenerator.GenPop` | il2cpp/MethodGenerator.cs:1848-1875 | emits the jump, the switch or the return on the popped slot |
| `MethodGenerators.MethodGenerator.GenerateInstCode` | il2cpp/MethodGenerator.cs:1185-1399 | stack, declarations and emitted code are those of the translation; fails exactly when there is none |
| `MethodGenerators.MethodGenerator.GenerateInst` | il2cpp/MethodGenerator.cs:1067-1183 | an instruction is generated at most once, its successors are queued or next, and the number of instructions still to be generated falls |
| `MethodGenerators.MethodGenerator.QueueBranches` | il2cpp/MethodGenerator.cs:1153-1167 | queues every target with the stack as it is |
| `MethodGenerators.MethodGenerator.AddHandlers` | il2cpp/MethodGenerator.cs:386-400 | queues each filter and handler start with the exception object on the stack, and declares its slot |
| `MethodGenerators.MethodGenerator.GenMethodImpl` | il2cpp/MethodGenerator.cs:376-517 | the worklist stops; the first instruction is generated on the empty stack, each handler and each filter start on one that holds the exception object, and an instruction is generated if and only if a path of control leads to it from one of these; each is generated as its translation, and the declared temporaries are exactly those some reachable stack shape needs |
| `MethodGenerators.GenerateKeeps` | il2cpp/MethodGenerator.cs:1067-1183 | generating one instruction keeps what holds between steps of the worklist |
| `MethodGenerators.GeneratedReachable` | il2cpp/MethodGenerator.cs:402-417 | when the queue is empty, the generated instructions are exactly the reachable ones |
| `MethodGenerators.WorkFinished` | il2cpp/MethodGenerator.cs:402-517 | then every temporary named in emitted code has been declared |
| `MethodGenerators.FinishedCompiled` | il2cpp/MethodGenerator.cs:490-510 | what has been generated is a compilation as the simulation needs it |
| `MethodGenerators.EntriesGenerated` | il2cpp/MethodGenerator.cs:386-417 | what is generated: the entries with their stacks, and just what paths from them lead to |
| `Overriding.VisibleIsSlot` | il2cpp/MethodTable.cs:798-839 | the visible slot of a signature is introduced by a method of that signature |
| `Overriding.SlotFacts` | il2cpp/MethodTable.cs:798-839 | a slot is introduced at or above its methods, has one signature, and is its own slot |
| `Overriding.SlotIsClosest` | il2cpp/MethodTable.cs:798-839 | slots without any notion of visibility: a newslot method has its own, a reuseslot method shares that of the closest method of its signature above it, the newslot one if that class has both, and has its own if there is none |
| `Overriding.OneJoins` | il2cpp/MethodTable.cs:798-839 | in one class at most one method joins a given slot |
| `Overriding.ImplUnique` | il2cpp/MethodTable.cs:155-182 | the most derived method of a slot is unique |
| `Overriding.HiddenForever` | il2cpp/MethodTable.cs:832-838 | a slot that a newslot method hides is never visible again |
| `Overriding.HiddenKeepsImpl` | il2cpp/MethodTable.cs:832-838 | a hidden slot keeps its last implementation in every class further down |
| `Overriding.SameSlots` | il2cpp/MethodTable.cs:752-775 | slots do not depend on classes further down |
| `MethodTables.SlotForHolds` | il2cpp/MethodTable.cs:798-839 | the slot entered for a method holds all methods of its declarative slot, its first method, and its most derived one |
| `MethodTables.KeyInherited` | il2cpp/MethodTable.cs:752-775 | a signature without a method in the class is inherited unchanged, and that is right |
| `MethodTables.KeyOne` | il2cpp/MethodTable.cs:798-839 | with one method of a signature, slot and entry maps agree with the override rules again |
| `MethodTables.KeyTwo` | il2cpp/MethodTable.cs:552-566 | so they do with a reuseslot and a newslot method of the same signature in one class, reuseslot first |
| `MethodTables.SlotRedirects` | il2cpp/MethodTable.cs:720-733 | only methods that joined a slot still visible in their class are redirected from it |
| `MethodTables.RedirectionsGrow` | il2cpp/MethodTable.cs:720-733 | after each class exactly those methods are redirected, each to the method that introduced its slot |
| `MethodTables.CallFacts` | il2cpp/MethodTable.cs:155-182 | a redirection stays in the slot of the method, and the entry map gives its most derived method |
| `MethodTables.TwoNewSlots` | il2cpp/MethodTable.cs:552-562 | two newslot methods of one signature without a reuseslot method: there is no slot to apply, and no table |
| `MethodTables.NothingToApplyExactly` | il2cpp/MethodTable.cs:552-562 | there is no slot to apply exactly for a signature with at least two methods, all of them newslot |
| `MethodTables.MethodTable.constructor` | il2cpp/MethodTable.cs:309-313 | an empty table |
| `MethodTables.MethodTable.GroupMethods` | il2cpp/MethodTable.cs:470-519 | first methods in order, one per signature, and per signature the reuseslot and newslot methods in order |
| `MethodTables.MethodTable.ApplyVirtualSlot` | il2cpp/MethodTable.cs:858-867 | every method of the slot maps to its implementation; other entries stay |
| `MethodTables.MethodTable.ProcessMethod` | il2cpp/MethodTable.cs:798-839 | the slot of the signature is the extended base slot or a new one, and is applied; a reuseslot method without a slot to reuse becomes newslot |
| `MethodTables.MethodTable.ProcessGroup` | il2cpp/MethodTable.cs:541-572 | all methods of one signature, reuseslot methods first; fails exactly when there is nothing to apply |
| `MethodTables.MethodTable.ResolveTable` | il2cpp/MethodTable.cs:456-575 | fails exactly when some signature has several methods, none of them reuseslot; for every regular chain the table agrees with the override rules: each method maps to the most derived method of its slot, hidden slots included, and the redirections are right |
| `MethodTables.MethodTable.AddRedirections` | il2cpp/MethodTable.cs:720-733 | every reuseslot method of a visible slot is redirected to the method that introduced it; older redirections stay where not overwritten |
| `MethodTables.MethodTable.ValidShared` | il2cpp/MethodTable.cs:752-775 | the table of a class is right whatever is derived from the class |
| `MethodTables.MethodTable.QueryCallVirt` | il2cpp/MethodTable.cs:155-182 | the redirecting loop stops, and returns the most derived method, at or above the class, of the slot of the called method |
| `Reaching.LeastUnique` | il2cpp/TypeManager.cs:111-140 | the least closed sets of methods and types are unique, so the order of the queue does not matter |
| `Reaching.LeastReaches` | il2cpp/TypeManager.cs:512-594 | the least sets, reference by reference: methods called or loaded, constructors with the types they create, implementations of virtual methods in created types, and static constructors for static methods, static fields and created types |
| `Reaching.LeastReasons` | il2cpp/TypeManager.cs:512-594 | nothing else is in them: each method that is no root has such a reference as its reason, and each type is created by a method |
| `Reaching.ResolvedKept` | il2cpp/TypeManager.cs:512-594 | following a reference keeps: a known method is processed, queued or a skipped virtual entry; and the reference is dealt with |
| `Reaching.ResolvedWithin` | il2cpp/TypeManager.cs:512-594 | following a reference of a reached method reaches nothing outside any closed set |
| `Reaching.BoundKept` | il2cpp/TypeManager.cs:827-852 | binding an entry lifts the skip flag of the implementation for good and queues it; all other facts stay |
| `Reaching.AnalysisDone` | il2cpp/TypeManager.cs:111-140 | with nothing left to do and the firm roots processed, the processed methods and instantiated types are the least sets closed under direct calls, object creation, and virtual calls over instantiated subtypes for these roots; each entry has exactly the implementations of the instantiated types |
| `Reaching.TurnSkips` | il2cpp/MethodX.cs:117-128 | when its turn comes, a root is skipped if and only if it is passed over: it is virtual, and firm roots before it call it virtually and none calls it directly |
| `Reaching.HeadFirm` | il2cpp/TypeManager.cs:113-133 | a virtual method that is processed without a flag is a firm root |
| `Reaching.LeastForAll` | il2cpp/TypeManager.cs:111-140 | the least sets for the firm roots are the least for all roots if and only if every set closed for the firm roots holds all roots |
| `Reaching.CourseKept` | il2cpp/TypeManager.cs:113-133 | taking the head of the queue keeps: the roots have their turns first and in order, those passed over are flagged at theirs and the others processed, and until the last turn all flags come from firm roots |
| `TypeManagers.TypeManager.constructor` | il2cpp/TypeManager.cs:94-97 | nothing known |
| `TypeManagers.TypeManager.SetSkipProcessing` | il2cpp/MethodX.cs:117-128 | once set to false the flag stays false |
| `TypeManagers.TypeManager.AddPendingMethod` | il2cpp/TypeManager.cs:984-991 | queued unless processed |
| `TypeManagers.TypeManager.AddMethod` | il2cpp/TypeManager.cs:943-982 | a new method becomes known and is queued; a known one changes nothing |
| `TypeManagers.TypeManager.GenStaticCctor` | il2cpp/TypeManager.cs:783-795 | the static constructor of a type is added once |
| `TypeManagers.TypeManager.AddVCallEntry` | il2cpp/TypeManager.cs:802-808 | the entry is recorded and is to be skipped unless it was called directly before |
| `TypeManagers.TypeManager.ResolveOperand` | il2cpp/TypeManager.cs:512-622 | calls, virtual calls, object creation and static fields change exactly what the step on values changes |
| `TypeManagers.TypeManager.ResolveVMethod` | il2cpp/TypeManager.cs:827-852 | the implementation is found, recorded for the type, freed of its skip flag, and queued |
| `TypeManagers.TypeManager.BuildInstructions` | il2cpp/TypeManager.cs:142-277 | all references of the body are followed; the invariant holds without exception again, and flags that come from processed methods still do |
| `TypeManagers.TypeManager.ProcessPending` | il2cpp/TypeManager.cs:113-133 | the queue becomes empty, the number of unprocessed methods falls, and the turns of the roots go on as they should |
| `TypeManagers.TypeManager.BindEntry` | il2cpp/TypeManager.cs:810-825 | after it the entry is bound for every instantiated type at or below its own |
| `TypeManagers.TypeManager.ResolveVCalls` | il2cpp/TypeManager.cs:810-825 | after it every entry is bound for every instantiated type at or below its own |
| `TypeManagers.TypeManager.ResolveAll` | il2cpp/TypeManager.cs:111-140 | stops, for any roots in any order; the processed methods are the least closed set for the roots that are not passed over in the queue; they are the least one for all roots if and only if every set closed for those holds all roots; overrides are recorded exactly for instantiated subtypes |
| `TypeManagers.LosingProgram` | il2cpp/Il2cppContext.cs:62-65 | two virtual methods, both roots, the first of which calls the second virtually: the second is passed over in this order, and neither in the other |
| `TypeManagers.LoseRoot` | il2cpp/TypeManager.cs:111-140 | a whole run of the analysis on it, in this order, ends with the second root not processed, and the sets found are not the least closed ones |
| `TypeManagers.KeepRoots` | il2cpp/TypeManager.cs:111-140 | in the other order the sets found are the least closed ones for both roots |
| `DerivedTypes.AboveWith` | il2cpp/TypeX.cs:278-289 | in the relation with one more edge, a path takes the new edge at most once |
| `DerivedTypes.StrictIsWay` | il2cpp/TypeX.cs:246-276 | strictly below means that a way of base types, interfaces and variance bases leads up, of one step or more |
| `DerivedTypes.NewType` | il2cpp/TypeX.cs:239-244 | entering a new type into the sets of everything above it keeps the sets exact |
| `DerivedTypes.NewVariance` | il2cpp/TypeX.cs:278-289 | a late edge between types that have descendants: adding the type and its descendants to everything at or above the base keeps the sets exact |
| `DerivedTypes.Hierarchy.AddDerivedTypeRecursive` | il2cpp/TypeX.cs:246-276 | the types are added to the sets of the type and of everything above it, and to no others |
| `DerivedTypes.Hierarchy.AddType` | il2cpp/TypeManager.cs:1510-1530 | after a new type the sets are exactly the strict transitive closure |
| `DerivedTypes.Hierarchy.UpdateDerivedTypes` | il2cpp/TypeX.cs:239-244 | the type enters the sets of everything strictly above it, and no others |
| `DerivedTypes.Hierarchy.AddVarianceBaseType` | il2cpp/TypeX.cs:278-289 | after a late variance edge the sets are exactly the strict transitive closure |
| `DerivedTypes.Hierarchy.IsDerivedType` | il2cpp/TypeX.cs:234-237 | true exactly if such a way leads up |
| `Units.Weight` | il2cpp/GeneratorContext.cs:230-254 | the depend order without regard to the width of words, at least 1 |
| `Units.WeightAbove` | il2cpp/GeneratorContext.cs:230-254 | a unit has a higher order than the units whose declarations it needs |
| `DependOrders.WeightBound` | il2cpp/GeneratorContext.cs:230-254 | with n units no order is above 2^(n - 1) |
| `DependOrders.FloorWeight` | il2cpp/GeneratorContext.cs:230-254 | in a tower, where each unit depends on all below it, the orders double from floor to floor |
| `DependOrders.FitExactly` | il2cpp/GeneratorContext.cs:230-254 | the orders of all acyclic maps of at most k units fit words of 64 bits if and only if k is at most 64 |
| `DependOrders.DeclaredExactly` | il2cpp/GeneratorContext.cs:125-129 | in all acyclic maps of at most k units, every list of units sorted by the computed orders holds declarations before their uses if and only if k is at most 64; the same for lists of all units |
| `Units.FinalsRise` | il2cpp/GeneratorContext.cs:230-254 | when the orders fit, the computed ones rise along dependencies |
| `DependOrders.TowerMisplaced` | il2cpp/GeneratorContext.cs:129 | in a tower of 65 units the computed order of the highest is 0, and sorting puts it before the one below it, whose declarations it needs |
| `Units.SortedDeclares` | il2cpp/GeneratorContext.cs:129 | sorted by orders that rise, each unit comes after the units of the list whose declarations it needs |
| `Units.BridgeDone` | il2cpp/GeneratorContext.cs:135-164 | when a pass takes nothing, the bridge holds exactly the bridge types and what they depend on, at any distance |
| `Units.PartMembers` | il2cpp/GeneratorContext.cs:179-188 | the parts of a merged unit are exactly the units placed there |
| `Units.PlacedOnce` | il2cpp/GeneratorContext.cs:170-191 | the code of each unit is exactly once part of the merged unit its name is translated to, and not once of any other |
| `Units.BuiltNext` | il2cpp/GeneratorContext.cs:83-90 | appending a unit to a merged unit gives what all its units together give: code in order, dependencies united |
| `Units.LookupsFit` | il2cpp/GeneratorContext.cs:193-203 | every dependency of a merged unit can be looked up in the translation |
| `Units.LoneLooked` | il2cpp/GeneratorContext.cs:193-203 | the look-ups for a single unit, which is never compared and so never optimised, succeed if and only if it depends on itself at most, or has no code and is dropped |
| `Units.IncludesAcyclic` | il2cpp/GeneratorContext.cs:193-206 | a merged unit includes existing units with a lower number or the bridge only, and the bridge includes none |
| `Includes.DeclIncluded` | il2cpp/GeneratorContext.cs:193-206 | what the declarations of a unit need is in its own merged unit or in one that this includes for declarations, unless it was dropped |
| `Includes.ImplIncluded` | il2cpp/GeneratorContext.cs:193-206 | what its definitions need is in its own merged unit or in one that this includes at all, unless it was dropped |
| `Includes.IncludesNeeded` | il2cpp/GeneratorContext.cs:193-206 | a merged unit has no other includes: each is another merged unit that some unit placed there needs, and none is included twice |
| `Includes.FinalDepends` | il2cpp/GeneratorContext.cs:72-81 | ordered units depend on what they depended on before, without themselves, unknown names, and for definitions what declarations need |
| `Includes.BridgeIsChained` | il2cpp/GeneratorContext.cs:135-164 | the bridge holds exactly the units that chains of declaration dependencies lead to from a bridge type |
| `Includes.CodeKept` | il2cpp/GeneratorContext.cs:83-90 | the declarations and definitions of each unit are in the text of its merged unit, in the bridge behind the line that defines its macro; a unit whose merged unit was dropped has no code |
| `Includes.CodeDeclared` | il2cpp/GeneratorContext.cs:125-191 | when the lists hold declarations before uses, so does the text of each merged unit |
| `Units.FilledNext` | il2cpp/GeneratorContext.cs:179-188 | one more unit goes to the current merged unit, and the next one is begun if that is full then |
| `Units.OptimizedAgain` | il2cpp/GeneratorContext.cs:72-81 | optimising twice is optimising once |
| `Mergers.CompileUnitMerger.constructor` | il2cpp/GeneratorContext.cs:120-123 | the given units |
| `Mergers.CompileUnitMerger.GetDependOrder` | il2cpp/GeneratorContext.cs:230-254 | stops for every map, cyclic or not, optimises the unit, gives it the order it returns and leaves the units on the stack alone; if the dependencies are acyclic the order is one more than the orders of the dependencies together, modulo the width of a word, computed again only while it is 0 |
| `Mergers.CompileUnitMerger.OrderAll` | il2cpp/GeneratorContext.cs:127-129 | every unit is optimised and has an order below the width of a word, which if the dependencies are acyclic is the depend order modulo that width; nothing else changes |
| `Mergers.CompileUnitMerger.SortUnits` | il2cpp/GeneratorContext.cs:129 | the same units, in ascending order |
| `Mergers.CompileUnitMerger.SortBridge` | il2cpp/GeneratorContext.cs:165 | the bridge units in ascending order; as the map of units is empty by then, those whose order is 0 are ordered again and lose their dependencies |
| `Mergers.CompileUnitMerger.BridgePass` | il2cpp/GeneratorContext.cs:141-163 | units are moved to the bridge, or none is left to move |
| `Mergers.CompileUnitMerger.CollectBridge` | il2cpp/GeneratorContext.cs:135-164 | the least set of units that holds the bridge types and is closed under dependencies, and the rest in order |
| `Mergers.CompileUnitMerger.BuildBridge` | il2cpp/GeneratorContext.cs:167-177 | the bridge units one after the other, each with its define, and their translations |
| `Mergers.CompileUnitMerger.BuildUnits` | il2cpp/GeneratorContext.cs:179-191 | the rest in order, one merged unit after the other; one is begun just when the one before is full |
| `Mergers.CompileUnitMerger.Translate` | il2cpp/GeneratorContext.cs:193-206 | fails exactly when some dependency cannot be looked up; otherwise the dependencies are the translated ones, optimised |
| `Mergers.CompileUnitMerger.Merge` | il2cpp/GeneratorContext.cs:125-209 | for any map of units: each is placed once, in turn, the next merged unit being begun just when one is full; the bridge is the least closed one; no look-up fails, if and only if there are at least two units or the only one depends on itself at most or is dropped; if the dependencies are acyclic and the orders fit words, which they do for up to 64 units, declarations come before uses in the bridge and among the other units |
| `Mergers.MisplaceTower` | il2cpp/GeneratorContext.cs:125-209 | merging a tower of 65 units, from start to end, puts a unit before one whose declarations it needs, in the same merged unit or in an earlier one |
| `CallOnce.StepInv` | runtime/il2cpp.cpp:119-137 | every atomic step of every thread keeps the invariant |
| `CallOnce.AfterInv` | runtime/il2cpp.cpp:119-137 | so it holds after every interleaving |
| `CallOnce.CalledOnce` | runtime/il2cpp.cpp:119-137 | in every interleaving, with nested calls, the function runs at most once, and the unreachable branch is never taken |
| `CallOnce.ReturnsLate` | runtime/il2cpp.cpp:119-137 | a call returns only after the function has been called exactly once and has returned, or to the thread that is running it |
| `CallOnce.OthersWait` | runtime/il2cpp.cpp:119-137 | while one thread runs the function no other thread returns |
| `CallOnce.WaitersLeave` | runtime/il2cpp.cpp:128-132 | once the flag is 2 each step of a waiting thread brings its call closer to its return |
| `CallOnce.StepNearer` | runtime/il2cpp.cpp:119-137 | each step of a thread that need not wait brings it closer to its return, by one of a stated number of steps |
| `CallOnce.FirstRuns` | runtime/il2cpp.cpp:119-137 | as long as nobody has begun, any thread with an open call that moves alone returns within 6 steps, with the flag at 2 and the function called exactly once |
| `CallOnce.RunnerEnds` | runtime/il2cpp.cpp:119-137 | when some thread has begun, there is one that alone brings the flag to 2 within 6 steps, nested calls included |
| `CallOnce.CallsReturn` | runtime/il2cpp.cpp:119-137 | from every state that can be reached, any open call can be brought to its return by at most 12 more steps, and then the function has been called exactly once |
| `Roots.CommitRoots` | runtime/il2cpp.cpp:60-90 | every address of every item lies in an added range, and no other does if and only if no two items share an address |
| `Roots.ItemsSize` | runtime/il2cpp.cpp:60-90 | items are separate exactly when they cover as many addresses as they are long together |
| `Roots.AllAdded` | runtime/il2cpp.cpp:60-90 | ranges begun at items and extended by their lengths cover the items, and exactly them when these are separate |
| `ArrayIndexes.GenerateMDArrayIndex` | il2cpp/MethodGenerator.cs:898-930 | one range check per dimension, and per dimension the product of its offset and all later sizes |
| `ArrayIndexes.RunIsRowMajor` | il2cpp/MethodGenerator.cs:898-930 | the generated code, run in words of 32 bits, computes the row-major index of the tuples in range and traps on all others, for every rank |
| `ArrayIndexes.RowMajorBound` | il2cpp/MethodGenerator.cs:898-930 | the index of a tuple in range lies between 0 and Length - 1 |
| `ArrayIndexes.TupleOfIndex` | il2cpp/MethodGenerator.cs:898-930 | the tuple can be found again from the index: different tuples have different indices |
| `ArrayIndexes.IndexOfTuple` | il2cpp/MethodGenerator.cs:898-930 | every index below Length is that of a tuple in range |
| `ArrayIndexes.FirstDifference` | il2cpp/MethodGenerator.cs:898-930 | elements are in the order of their tuples, the first difference deciding, so the last index varies fastest |
| `ArrayIndexes.NothingOverflows` | il2cpp/MethodGenerator.cs:898-930 | no partial product and no partial sum, added from the left, reaches Length |
| `ArrayIndexes.IndexRightWhen` | il2cpp/MethodGenerator.cs:898-930 | for a length that fits a word, the index is right for all tuples in range if and only if no dimension has a negative lower bound and a size above 2^31 |
| `ArrayIndexes.WideOverflows` | il2cpp/MethodGenerator.cs:898-930 | in such a dimension the subtraction of the lower bound overflows for a tuple in range |
| `FreeListBuild.BuildFlClear2` | runtime/bdwgc/new_hblk.c:30-47 | the same memory and head as the general loop for cleared objects of two words |
| `FreeListBuild.BuildFlClear4` | runtime/bdwgc/new_hblk.c:50-67 | the same for cleared objects of four words |
| `FreeListBuild.BuildFl2` | runtime/bdwgc/new_hblk.c:70-83 | the same for objects of two words that are not cleared |
| `FreeListBuild.BuildFl4` | runtime/bdwgc/new_hblk.c:86-100 | the same for objects of four words that are not cleared |
| `FreeListBuild.BuildAny` | runtime/bdwgc/new_hblk.c:139-164 | the general loop: the link of every object, and zeros or the old contents elsewhere |
| `FreeListBuild.BuildFl` | runtime/bdwgc/new_hblk.c:109-165 | that memory and head, whichever builder is used |
| `FreeListBuild.ListIsObjects` | runtime/bdwgc/new_hblk.c:139-164 | following the links from an object visits it and all objects before it in descending order, then the old list |
| `FreeListBuild.WholeList` | runtime/bdwgc/new_hblk.c:109-165 | from the head: exactly the whole objects of the block in descending order, then the old list |
| `FreeListBuild.ObjectsDisjoint` | runtime/bdwgc/new_hblk.c:109-165 | different objects do not overlap |
| `FreeListBuild.ObjectsFill` | runtime/bdwgc/new_hblk.c:109-165 | there is no room for another object |
| `FreeListBuild.ObjectWords` | runtime/bdwgc/new_hblk.c:139-164 | the words of an object behind its link, and those behind the last object, are cleared or left as they were |
| `BackGraphs.HeightIsLongest` | runtime/bdwgc/backgraph.c:366-405 | no chain of predecessors in an acyclic graph is longer than the height, counted from the height saved for its first object |
| `BackGraphs.ChainOfHeight` | runtime/bdwgc/backgraph.c:366-405 | and there is one of that length |
| `BackGraphs.BackGraph.constructor` | runtime/bdwgc/backgraph.c:40-62 | no edges |
| `BackGraphs.BackGraph.NewBackEdges` | runtime/bdwgc/backgraph.c:76-99 | a structure that no object uses, from the free list or new |
| `BackGraphs.BackGraph.DeallocateBackEdges` | runtime/bdwgc/backgraph.c:111-118 | the whole chain of structures goes to the free list; other objects keep their edges |
| `BackGraphs.BackGraph.EnsureStruct` | runtime/bdwgc/backgraph.c:209-227 | the object has a structure afterwards, with the same predecessors |
| `BackGraphs.BackGraph.HasPred` | runtime/bdwgc/backgraph.c:180-206 | whether p is among the predecessors, found by walking the chunks |
| `BackGraphs.BackGraph.AddEdge` | runtime/bdwgc/backgraph.c:231-276 | each added predecessor is held exactly once, in the order of addition, over any number of chunks; other objects keep theirs |
| `BackGraphs.BackGraph.AppendEdge` | runtime/bdwgc/backgraph.c:251-275 | one more edge at the end of the last chunk, or in a new chunk when that is full |
| `BackGraphs.BackGraph.BackwardsHeight` | runtime/bdwgc/backgraph.c:366-405 | on any graph, cyclic or not, the memoised search stops, leaves edges and the in-progress stack as they were, returns 0 exactly for objects being searched, and otherwise the length of a chain of predecessors, on an acyclic graph of the longest; every height it stores is of that kind |
| `BackGraphs.BackGraph.MaxOverPreds` | runtime/bdwgc/backgraph.c:378-402 | the saved height, or one more than the greatest height found for a predecessor |
| `BackGraphs.BackGraph.IsInProgress` | runtime/bdwgc/backgraph.c:165-173 | whether the object is on the in-progress stack |

## Left out

The heap:

- `USE_MUNMAP`: unmapping and remapping of free blocks, and free neighbours that stay apart because of it.
- Failures to allocate headers and bottom indices, and with them the blocks the code drops; the free list of headers
  and the scratch memory they come from. A header is found by the number of the block it is installed for.
- The hash chains of the top index: bottom indices are found by key in a map.
- `Heaps.Heap.SplitBlock`: installs the header of the second part itself, where the code installs it just before.
- `Heaps.Heap.AddToHeap`: requires memory that is not in the heap yet and a total size below the sign bit; the growth
  targets and the least and greatest plausible addresses are not modelled; the abort for too many sections is a
  result.
- `Heaps.Heap.Allochblk`: requires a size above zero; the conditions that lead to a full search, the bytes freed by
  finalizers and the black lists are parameters, because they come from the rest of the collector; warnings,
  protection and incremental marking are not modelled.
- `Heaps.Heap.FreeHblk`: requires a block in use; the aborts for a block that is free already, and for one that is
  larger than half of the address space, do not arise then.
- `Searches.FailsOnlyWhenFull`: requires that no block of the heap is listed and that all lists may be split, as it is
  only true then; `Searches.FullSearch` is the result for black lists of any kind.
- The order of bottom indices in memory and the conditions that are checked with assertions enabled only.
- `BackGraphs.BackGraph.BackwardsHeight`: on cyclic graphs the height depends on the order of traversal, and the
  source promises an approximation only; there the contract says that it is the length of a chain, not of which. The
  width of the collection number, the bound on the number of structures, and the reset and report between collections
  are not modelled.
- `FreeListBuild.BuildFl`: writes to one block of memory; prefetching is left out, and so is `GC_new_hblk` around it.

The compiler:

- Instructions outside the subset: calls, fields, arrays, objects, conversions, shifts, addresses of variables, and
  throw. They need memory and frames in both semantics; the translation of each is an assignment or a call.
- Exception regions and `leave`: handlers are entry points with the exception object on the stack, and nothing more.
- `CompiledRuns.MethodSimulated`: assumes stack shapes that agree at joins (section III.1.8.1.3 of ECMA-335), and
  operand types for which the emitted comparisons and arithmetic are right, which `Simulation.CompareRightWhen` and
  `Operators.BinaryRightWhen` show to be necessary; native ints have 64 bits; after an undefined operation nothing is
  promised.
- `CompiledRuns.BinaryStep`: takes sums, differences, products and quotients of floating point values, and rounding to
  single precision, as parameters of both semantics.
- The text of the emitted code: statements are values of a datatype.
- `ArrayIndexes.IndexRightWhen`: for arrays whose length fits the 32 bits the runtime keeps it in; that it does is a
  matter of the array's constructor.

Dispatch:

- Interfaces, explicit overrides, generic expansion with `MergeExpandedEntry`, look-ups through variance, and the
  cache of calls. `SameTypeReplaceMap` is empty without explicit overrides.
- `MethodTables.MethodTable.ResolveTable`: agrees with the rules for regular chains, in which a class has at most one
  newslot and one reuseslot method of each signature; abstract methods count as methods there, and the check that a
  class that is not abstract implements them is left out.
- `MethodTables.MethodTable.QueryCallVirt`: for methods of the chain; a type that does not have the method is an
  error.

Analysis and linking:

- `TypeManagers.TypeManager.ResolveAll`: requires that every type that can be created implements the virtual methods
  of its bases; calls redirected by the same-type replace map, finalizers, and types and methods made while the
  analysis runs are left out, so the subtype relation is fixed.
- `ResolveVariances` and `TryLinkVariance`: which types get variance edges; the effect of an edge is modelled.
- `DerivedTypes.Hierarchy.AddType`: takes the bases of the new type as given, and requires them to be known.
- `Mergers.CompileUnitMerger.SortUnits`: an insertion sort that promises sortedness only, as the library's sort does.
- `Mergers.CompileUnitMerger.GetDependOrder`: on a cycle of dependencies the orders depend on where it starts, and the
  contract says nothing about their values.
- `Mergers.CompileUnitMerger.Merge`: names are values of a datatype, so the generated names cannot clash with others;
  dependencies on string literals are not modelled; the orders do not change while the units are sorted.
- `GetNotUsedTypeName` and `ToRadix`: choosing names that are not in use.

The runtime:

- `CallOnce.CalledOnce`: under sequential consistency, for an initial lock value that is the id of no thread, and a
  function that returns normally; that two initialisers can wait for each other is not modelled.
- `il2cpp_SpinLock`: a plain lock.
- `Roots.CommitRoots`: takes the items in the order of addresses that the sort gives, none of them null.
