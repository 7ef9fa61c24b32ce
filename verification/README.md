# ucore labs: a verified model

The ucore OS labs for RISC-V contain several page allocators, a priority heap, a tool that builds a file-system image,
a pseudo-random number generator, a reader for flattened device trees, and a printf family with its parser. This project
models them in Dafny, keeping the form of the C code: the structures that are updated in place are classes with those
fields, loops are loops, and the pointer surgery on lists and heaps is done on linked objects. Each method is proved
against a function or a predicate on its old and new state, and what the code promises is proved of that.

## What is modelled

**Buddy page allocator** (`Buddy`, over `BuddyState`, `BuddyTheory`, `BuddyRuns`, `Bits`). Free lists, their counters, the
page descriptors with their marks, and `nr_free` as the unsigned int it is. The invariant `Inv` says that the blocks tile
exactly the managed pages, that the lists hold blocks of their order, and that every set mark belongs to a listed block or
is stale: it lies strictly inside an aligned block, aligned to its old order. It makes the merge test, which looks at
marks alone, sound and complete, at any start index. `nr_free` drifts, since a merge takes the buddy out of it for good;
the drift is a ghost field and is exact. A call that does not return is the result `Hangs`. Every method keeps `Valid`, so
all that is proved of it holds in every reachable state.

**Skew heap** (`SkewHeap`, over `SkewTree`). Merge, insert and removal of any node rewrite `left`, `right` and `parent` in
place and are proved against functions on trees. On these: heap order, exact elements, and an amortised bound on the calls
of merge over any sequence of operations, with the right-heavy nodes as potential.

**Circular list, SLUB page layer, best fit** (`ListH`, `FreeArea`, `FreeBlocks`, `Slub`, `BestFit`). The list of list.h is a
ring of linked entries, and both allocators work on it entry by entry. Their invariant ties list, marks, sizes, `nr_free`,
managed and handed-out pages together. Best fit's insertion loop is modelled as it stands, without a break after an insertion
at the tail: it adds the new entry a second time, after itself. The contracts say exactly when this happens, what the list is
then, and that the entry can be handed out from it again and again.

**Random numbers** (`Rand`, over `Lcg`). The generator's full period, and how often it returns each number.

**Image builder mksfs** (`Sfs`, `Mksfs`, `SfsImage`, over `SfsFile`, `SfsState`, `SfsEntry`, `SfsTree`, `SfsWalk`,
`SfsDisk`, `SfsLayout`). Block allocation, the inode's block map with its two cursors, the hash chains, the recursive walk, the static
buffer of add_entry, the bitmap and the flushing of the caches. The host's file system is a tree (`Host`), the image a map
from block numbers to contents. A finished inode is labelled with the host inode it was made for (`Shape`), so that the
representation says which names share one. `CreateImg` goes from an empty image file to the closed image and ends with what
a reader of the image finds. The search for a pointer block looks along another chain than the one it was put on; `searches`
counts how often it is made, and it is 0 in every state of every run.

**Device tree reader** (`Dtb`, `DeviceTree`). Bytes, byte order and the token stream of section 5.4 of the Devicetree
Specification; what the one-pass reader takes from any tree, and when that is the first memory node.

**Printing and parsing** (`Printf`, `PrintFormat`, `PrintNum`, `PrintLaws`, `Strtol`). The format machine with its rewinding
of escapes it does not recognise, the bounded buffer, the number printer and strtol; what every conversion prints in every
field, and what strtol reads of it.

## Where the code does not do what it says

- printfmt.c says that base may be 1 in printnum; it would not end (`PrintNum.BaseOneStays`). The model asks for at least 2,
  as every caller passes.
- printfmt.c says that padding and width are for numbers only; the code supports them for %s too, and so does the model.
- mksfs.c admits names of 255 characters, and of these 252 reach the image: the entry it writes is 256 bytes long, 4 of them
  the inode number (`SfsEntry.EntryReads`, `SfsEntry.NameWhole`).
- mksfs.c takes the number of blocks from 32 bits of the size before it compares it with the limit (`SfsImage.UsedExactly`).
- best_fit_pmm.c says that an entry is put at the tail when the end is reached; see `BestFit.Insert` for what happens, and
  `BestFit.TailReached` and `BestFit.HandedOutAgain` for calls that lead there and hand one page out several times.
- buddy_pmm.c's nr_free is right after a free exactly when nothing is merged (`Buddy.BuddyPmm.FreePagesAt`). It can wrap around,
  and then log2_ceil may be asked for an order its loop never finds (`Buddy.BuddyPmm.AllocPages`, `BuddyRuns.WrapReached`).
- rand.c says that rand returns numbers in [0, RAND_MAX]; it never returns 0, and 1 to 32 come up more often than the rest,
  since the macro do_div (riscv.h:234-240) does not put its argument RAND_MAX + 1 in parentheses (`Rand.HitsPerPeriod`,
  `Rand.EvenExactly`).
- strtol in base 0 takes a decimal number padded with zeros for octal (`PrintNum.ZeroPaddedAny`), and printing a sign before
  spaces gives a text strtol does not read (`PrintNum.NegativeRoundTrip`).
- string.c allows the prefix 0X in strtol; the code reads only its zero (`Strtol.CapitalPrefix`).
- a precision of 0 cannot be written in a format of printfmt.c (`PrintLaws.PrecisionZero`).
- slub_pmm.c joins blocks only when pages are freed: of a new region it gives no two pages at once (`Slub.OneAtATime`). Its
  one pass can leave blocks apart that touch (`FreeBlocks.OnePassMisses`).
- buddy_pmm.c handles pages left over in buddy_init_memmap; there are none (`Buddy.BuddyPmm.TileRegion`).
- dtb.c looks for the reg of a memory node; without one it may take a child's (`DeviceTree.TakenFromChild`), on exactly the
  trees that `DeviceTree.RightExactly` describes.

## Model

| member | source | states |
|---|---|---|
| Bits.XorFlipsBit | Lab2/codes/kern/mm/buddy_pmm.c:63-66 | index ^ 2^k moves the index by 2^k, up when bit k is clear and down when it is set |
| Bits.AndMaskIsMod | Lab2/codes/kern/mm/buddy_pmm.c:75-83 | the mask test (i & (2^k - 1)) is the remainder modulo 2^k, for every i and k |
| Bits.BuddyPosition | Lab2/codes/kern/mm/buddy_pmm.c:63-83 | the xor test always holds of the computed buddy, and the mask test on the lower of the two decides whether they are halves of one aligned block |
| Bits.XorBelow | Lab2/codes/kern/mm/buddy_pmm.c:69-72 | with a page array whose length is a multiple of the largest block, the computed buddy lies inside the array |
| BuddyState.MergeTestSound | Lab2/codes/kern/mm/buddy_pmm.c:228-249 | in every reachable state the three-part merge test on page marks succeeds exactly when the buddy is the head of a block on the free list of that very order and the two form an aligned block, although marks of absorbed halves are never cleared |
| BuddyState.StaleCoversBuddy | Lab2/codes/kern/mm/buddy_pmm.c:228-249 | a stale mark of order k lies in a larger block that already covers the whole aligned pair it belongs to |
| BuddyState.MergeKeeps | Lab2/codes/kern/mm/buddy_pmm.c:236-245 | absorbing a listed buddy keeps the tiling, the lists and the justification of every mark, the absorbed half's included |
| BuddyState.SplitKeeps | Lab2/codes/kern/mm/buddy_pmm.c:191-203 | listing the upper half of a block keeps the tiling, the lists and the justification of every mark |
| BuddyState.PopKeeps | Lab2/codes/kern/mm/buddy_pmm.c:180-187 | taking the first block off a list keeps the invariant, that block being in hand |
| BuddyState.HandOutKeeps | Lab2/codes/kern/mm/buddy_pmm.c:205-207 | handing out the block in hand keeps the invariant |
| BuddyState.TakeBackKeeps | Lab2/codes/kern/mm/buddy_pmm.c:217-225 | marking a returned block free keeps the invariant, that block being in hand |
| BuddyState.ListKeeps | Lab2/codes/kern/mm/buddy_pmm.c:251-254 | listing the grown block keeps the invariant |
| BuddyState.AddBlockKeeps | Lab2/codes/kern/mm/buddy_pmm.c:120-136 | listing a block on unmanaged pages keeps the invariant and extends the tiling by exactly its pages |
| BuddyState.LiveDisjoint | Lab2/codes/kern/mm/buddy_pmm.c:156-215 | no page is in two outstanding blocks |
| Buddy.Log2CeilUnique | Lab2/codes/kern/mm/buddy_pmm.c:29-35 | the order computed for a request is the only one whose block holds it and whose half does not |
| Buddy.ComputeLog2Ceil | Lab2/codes/kern/mm/buddy_pmm.c:29-35 | the shifting loop computes that order for every request up to 2^31, and never ends for a larger one |
| Buddy.LoopEnds | Lab2/codes/kern/mm/buddy_pmm.c:29-35 | with a 32-bit shift, whose count is taken modulo 32, some pass of the loop is the last exactly when the request is at most 2^31 |
| Buddy.MaxOrder | Lab2/codes/kern/mm/buddy_pmm.c:107-111 | starting the search for block sizes at this order gives the same blocks as starting at MAX_ORDER |
| Buddy.FitOrder | Lab2/codes/kern/mm/buddy_pmm.c:117-121 | the inner loop finds the largest order that still fits |
| Buddy.BuddyPmm.constructor | Lab2/codes/kern/mm/buddy_pmm.c:85-93 | empty lists, counters at zero, invariant established |
| Buddy.BuddyPmm.TileRegion | Lab2/codes/kern/mm/buddy_pmm.c:113-154 | the region is tiled by the greedy decomposition with nothing left over, so the break and the leftover loop are dead; lists, counters and managed pages are given exactly |
| Buddy.BuddyPmm.InitMemmap | Lab2/codes/kern/mm/buddy_pmm.c:95-154 | at any start index, aligned or not: the invariant holds, exactly the region becomes managed, outstanding blocks are untouched, nr_free grows by n modulo 2^32; and no two free buddies arise from a first region at any start, or from any further one when every region starts at a multiple of the largest block |
| Buddy.BuddyPmm.AllocPages | Lab2/codes/kern/mm/buddy_pmm.c:156-215 | for every request: a block exactly when 0 < n <= nr_free and some list of order log2_ceil(n) to MAX_ORDER is not empty; no end exactly when 2^31 < n <= nr_free; otherwise NULL. The block is the first of the smallest such list, was not outstanding, and becomes so; lists and nr_free are given exactly, and nr_free wraps around exactly when the block has more pages than it counts; without a block nothing changes |
| Buddy.BuddyPmm.FreePagesAt | Lab2/codes/kern/mm/buddy_pmm.c:217-255 | the lists become those of merging by list membership; the block alone leaves the outstanding ones; nr_free is off by what the merges absorbed, and grows by the size of the block exactly when the guard of the merge test fails for it at once: largest order, or a buddy that is no aligned half on the list of that order |
| BuddyTheory.UniqueDecomposition | Lab2/codes/kern/mm/buddy_pmm.c:228-254 | two aligned decompositions without free buddies that cover the same pages are equal |
| BuddyTheory.OneBlockHolds | Lab2/codes/kern/mm/buddy_pmm.c:228-254 | in such a decomposition an aligned chunk that is covered at all is covered by one block |
| BuddyTheory.FreeMerged | Lab2/codes/kern/mm/buddy_pmm.c:228-254 | freeing leaves no two buddies below the largest order both free |
| BuddyTheory.AllocMerged | Lab2/codes/kern/mm/buddy_pmm.c:172-203 | splitting leaves no two buddies both free |
| BuddyTheory.GreedyMerged | Lab2/codes/kern/mm/buddy_pmm.c:113-141 | a first region leaves no two buddies both free, whatever page it starts at |
| BuddyTheory.RegionMerged | Lab2/codes/kern/mm/buddy_pmm.c:95-141 | a further region leaves no two buddies both free either, when it and those before it start at multiples of the largest block, so that no chunk of that size belongs to two regions |
| BuddyTheory.MergesWhen | Lab2/codes/kern/mm/buddy_pmm.c:228-249 | merging by list membership goes beyond the first order exactly when the buddy is an aligned half listed under that order |
| BuddyTheory.CounterRight | Lab2/codes/kern/mm/buddy_pmm.c:224-241 | modulo 2^32, what a free adds to nr_free is the size of the block exactly when the block has not grown |
| BuddyTheory.CounterWraps | Lab2/codes/kern/mm/buddy_pmm.c:162-185 | taking a block from nr_free makes it wrap around exactly when the block has more pages than nr_free counts |
| BuddyTheory.GreedyOrders | Lab2/codes/kern/mm/buddy_pmm.c:113-141 | no order below the largest occurs twice in the decomposition of a region |
| BuddyRuns.LiveDeterminesLists | Lab2/codes/kern/mm/buddy_pmm.c:156-255 | in any settled state, aligned and fully merged, the lists are determined by the managed pages and the outstanding blocks; regions that start at multiples of the largest block, allocations and frees keep states settled |
| BuddyRuns.AllFreed | Lab2/codes/kern/mm/buddy_pmm.c:95-255 | after any run in which everything is freed the lists hold exactly the blocks buddy_init_memmap made |
| BuddyRuns.DriftExample | Lab2/codes/kern/mm/buddy_pmm.c:224-241 | one page allocated from a region of two and freed again: one block of two pages is listed and the counter says one |
| BuddyRuns.WrapReached | Lab2/codes/kern/mm/buddy_pmm.c:156-241 | on a region of five pages, two allocated, freed, and three allocated leave nr_free at 2^32 - 1, after which any request above 2^31 pages never returns |
| BuddyRuns.FreedIsNext | Lab2/codes/kern/mm/buddy_pmm.c:177-187 | a block given back that merges with nothing is the one the next request for as many pages gets, whatever else is listed; lists and outstanding blocks are then as before |
| BuddyRuns.LargestFirst | Lab2/codes/kern/mm/buddy_pmm.c:113-141 | the largest blocks of a new region are handed out from its last one down to its first, before any that were free already |
| BuddyTheory.FreedFirst | Lab2/codes/kern/mm/buddy_pmm.c:251-254 | listing a block that merges with nothing puts it in front of the list of its order and changes no other |
| BuddyTheory.LargestDown | Lab2/codes/kern/mm/buddy_pmm.c:113-141 | the list of the largest blocks after a region: the region's from its end down, then those that were there |
| SkewTree.MergeElems | Lab6/code/libs/skew_heap.h:29-59 | merging keeps exactly the elements of both heaps, and their number |
| SkewTree.MergeHeap | Lab6/code/libs/skew_heap.h:29-59 | merging two heaps gives a heap, for any total preorder that returns -1 exactly on strictly less |
| SkewTree.RemoveElems | Lab6/code/libs/skew_heap.h:69-85 | removing any node takes out exactly that node |
| SkewTree.RemoveHeap | Lab6/code/libs/skew_heap.h:69-85 | removing any node of a heap leaves a heap |
| SkewTree.MergeAmortised | Lab6/code/libs/skew_heap.h:29-59 | calls of merge plus right-heavy nodes afterwards are at most the right-heavy nodes before plus 1 + 2 (log2 |a| + log2 |b|) |
| SkewTree.FewTurnHeavy | Lab6/code/libs/skew_heap.h:69-85 | removing an interior node makes at most log2 n of its ancestors right-heavy |
| SkewTree.RemovePotential | Lab6/code/libs/skew_heap.h:69-85 | the amortised cost of removing any node, its ancestors' change of potential included |
| SkewTree.RunAmortised | Lab6/code/libs/skew_heap.h:29-85 | over any sequence of inserts and removals of arbitrary nodes the calls of merge are bounded by the potential at the start plus the sum of 3 + 5 log2(n + 1) |
| SkewTree.RunFromEmpty | Lab6/code/libs/skew_heap.h:29-85 | from an empty heap, the sum alone bounds the calls |
| SkewTree.RunHeap | Lab6/code/libs/skew_heap.h:29-85 | every sequence of operations keeps heap order |
| SkewHeap.MergeEntries | Lab6/code/libs/skew_heap.h:29-59 | on linked nodes, in place: the result is the merged tree, every child's parent is correct, the nodes are exactly those of both heaps, and the calls made are those counted; the root's parent is left alone |
| SkewHeap.Insert | Lab6/code/libs/skew_heap.h:61-67 | in place: a whole heap with exactly one more node, whose root has no parent |
| SkewHeap.RemoveEntry | Lab6/code/libs/skew_heap.h:69-85 | in place, for any node: a whole heap without exactly that node |
| SkewHeap.Rehung | Lab6/code/libs/skew_heap.h:73-83 | hanging the merged children on the side of the parent the node was on links the tree without it |
| ListH.AddBetween | Lab2/codes/libs/list.h:141-146 | the four assignments, exact even where the three entries coincide |
| ListH.RingAdd | Lab2/codes/libs/list.h:79-82 | inserting an entry that is not in a ring gives the ring with it after the k-th entry |
| ListH.RingDel | Lab2/codes/libs/list.h:91-94 | deleting an entry gives the ring without it |
| ListH.SelfAdd | Lab2/codes/libs/list.h:53-56 | adding the last entry of a ring once more, after itself, leaves it naming itself as its predecessor |
| ListH.SelfDel | Lab2/codes/libs/list.h:91-94 | of such a list: deleting the self-linked entry changes no link; deleting the entry before it makes a ring again; deleting any other leaves such a list without that entry |
| ListH.SelfLinkedNoRing | Lab2/codes/libs/list.h:53-56 | after that no sequence of entries is a ring through the head |
| FreeBlocks.CoalescePages | Lab2/codes/kern/mm/slub_pmm.c:320-339 | the coalescing pass keeps exactly the free pages |
| FreeBlocks.CoalesceSum | Lab2/codes/kern/mm/slub_pmm.c:320-339 | and their number |
| FreeBlocks.CoalesceApart | Lab2/codes/kern/mm/slub_pmm.c:320-339 | and leaves blocks that share no page |
| FreeBlocks.CoalesceMaximal | Lab2/codes/kern/mm/slub_pmm.c:320-339 | if no two listed blocks touch, one pass leaves none that touch |
| FreeBlocks.CoalesceNext | Lab2/codes/kern/mm/slub_pmm.c:320-339 | the pass goes from the front: each block is absorbed if it touches the hand as those before it have left it, and otherwise stays behind those that stayed |
| FreeBlocks.OnePassMisses | Lab2/codes/kern/mm/slub_pmm.c:320-339 | a list on which one pass leaves two blocks that touch: the block between them comes later on the list |
| FreeBlocks.TakeScattered | Lab2/codes/kern/mm/slub_pmm.c:285-298 | taking pages from the front of a block, or all of it, leaves no two that touch if there were none |
| FreeBlocks.ScatteredRuns | Lab2/codes/kern/mm/slub_pmm.c:320-339 | when no two listed blocks touch, the list holds exactly the longest runs of free pages, whatever its order |
| FreeBlocks.OrderedUnique | Lab2/codes/kern/mm/best_fit_pmm.c:140-198 | two lists in address order, merged as far as merging goes, that hold the same pages are equal |
| FreeArea.TiedJoin | Lab2/codes/kern/mm/slub_pmm.c:327-338 | in either direction of a merge the marks and sizes on the pages are again those of the listed heads and the block in hand |
| FreeArea.Area.CountFits | Lab2/codes/kern/mm/slub_pmm.c:250-346 | nr_free is at all times the number of managed pages that are not handed out, so it never wraps around; for both list allocators |
| FreeArea.Area.Delete | Lab2/codes/kern/mm/slub_pmm.c:330-337 | deleting the k-th block's entry leaves the ring of the others; where the entry is linked to itself, it leaves everything as it was |
| Slub.InitMemmap | Lab2/codes/kern/mm/slub_pmm.c:235-248 | every page becomes a block of one page at the back of the list; the whole invariant holds |
| Slub.OneAtATime | Lab2/codes/kern/mm/slub_pmm.c:235-303 | from a new region of any size, with nothing else free, a request for two pages or more gets NULL, and requests for one page get its pages in order |
| Slub.AllocPages | Lab2/codes/kern/mm/slub_pmm.c:250-303 | NULL exactly when no block is large enough; otherwise the first that is, its rest at the front of the list; no page handed out was handed out before; sizes sum to nr_free; if no two listed blocks touched, as on an empty list, none do |
| Slub.SomeFits | Lab2/codes/kern/mm/slub_pmm.c:255-270 | the early test against nr_free refuses only what no block could serve |
| Slub.CoalescePass | Lab2/codes/kern/mm/slub_pmm.c:320-339 | the loop that deletes from the list it walks visits each original entry once: its result is the pass over the original list |
| Slub.FreePages | Lab2/codes/kern/mm/slub_pmm.c:305-346 | any run of handed-out pages may be given back; the assertions on its pages hold; the list is the grown block and the kept ones, and no page is lost; if no two listed blocks touched, none do |
| BestFit.FindBest | Lab2/codes/kern/mm/best_fit_pmm.c:111-123 | the scan finds the lowest-address block among those of least adequate size, and none exactly when no adequate one is within nr_free |
| FreeBlocks.LeastThenFirst | Lab2/codes/kern/mm/best_fit_pmm.c:111-123 | the best block is smaller than every adequate one before it and no larger than those after it |
| BestFit.AllocPages | Lab2/codes/kern/mm/best_fit_pmm.c:104-138 | that block is taken, its rest stays in its place in the list, and the whole invariant including order is kept; NULL exactly when none is adequate. After the tail path, when the self-linked block is the best and fits exactly: it is handed out whenever nr_free admits the request, and the list stays as it was |
| BestFit.Insert | Lab2/codes/kern/mm/best_fit_pmm.c:156-169 | the insertion loop as it is: in place when the list is empty or some block lies above; otherwise the new last entry is added a second time and is left self-linked |
| BestFit.FreePages | Lab2/codes/kern/mm/best_fit_pmm.c:140-198 | the list is a ring afterwards exactly when it was empty or some listed block lies above the freed run, and then it is in order and merged as far as merging goes; otherwise the freed run is last on it and linked to itself; nr_free and the handed-out pages are given exactly |
| BestFit.InitMemmap | Lab2/codes/kern/mm/best_fit_pmm.c:69-102 | the same condition for the same loop; the list is given exactly in either case |
| BestFit.TailReached | Lab2/codes/kern/mm/best_fit_pmm.c:140-198 | the other case is within reach: in a region all of whose pages are handed out, giving back the first m and then the last leaves no ring through the list head, for every size of region and every m |
| BestFit.AskAgain | Lab2/codes/kern/mm/best_fit_pmm.c:104-138 | on such a list every request that the self-linked block fits exactly, as many as nr_free admits, gets that same block |
| BestFit.HandedOutAgain | Lab2/codes/kern/mm/best_fit_pmm.c:104-198 | after these calls, with m of at least 2, the next m + 1 requests for one page all get the last page |
| Lcg.GeoAligned | Lab6/code/libs/rand.c:13 | 1 + a + ... + a^(n-1) is divisible by 2^k exactly when n is, for a = 1 modulo 4 |
| Lcg.IterClosed | Lab6/code/libs/rand.c:13 | the state after n steps in closed form |
| Lcg.ReturnsWhen | Lab6/code/libs/rand.c:13 | the state returns after n steps exactly when 2^k divides n |
| Lcg.SingleCycle | Lab6/code/libs/rand.c:13 | the 2^k states form one cycle, for every odd increment and every multiplier of the form 4 m + 1 |
| Rand.Generator.Rand | Lab6/code/libs/rand.c:11-16 | the 64-bit wrap-around does not show: the state is the generator's next modulo 2^48; the result, do_div's argument not being in parentheses, is its upper 36 bits modulo RAND_MAX, plus 1 |
| Rand.Generator.Srand | Lab6/code/libs/rand.c:22-25 | the state is the seed |
| Rand.StepInNumbers | Lab6/code/libs/rand.c:13 | the next state of 0 is 11, and neighbouring states move 25214903917 apart modulo 2^48 |
| Rand.FirstNumber | Lab6/code/libs/rand.c:4-16 | the first number from the initial state is 6155983 |
| Rand.RandSingleCycle | Lab6/code/libs/rand.c:11-16 | rand runs through all 2^48 states in a single cycle |
| Rand.HitsPerPeriod | Lab6/code/libs/rand.c:11-16 | any 2^48 consecutive calls return 0 never, each number from 1 to 32 exactly 33 * 4096 times, and each from 33 to RAND_MAX exactly 2^17 times |
| Rand.EvenExactly | Lab6/code/libs/rand.c:11-16 | a number is returned as often as all from 0 to RAND_MAX would be if they came equally often exactly when it is from 33 to RAND_MAX |
| SfsFile.LookupListed | Lab8/code/tools/mksfs.c:397-426 | looking index i up through direct, indirect and double-indirect blocks gives the i-th block appended, for every i below nblks |
| SfsFile.FileFrame | Lab8/code/tools/mksfs.c:397-426 | a file does not notice changes outside its own pointer blocks |
| SfsFile.AppendFirstDouble | Lab8/code/tools/mksfs.c:414-421 | the first block beyond the indirect ones allocates two pointer blocks and maps right |
| SfsFile.AppendFirstInLeaf | Lab8/code/tools/mksfs.c:414-421 | a full leaf: one more pointer block, entered in the double-indirect block |
| SfsFile.AppendInLeaf | Lab8/code/tools/mksfs.c:414-421 | otherwise the cursor l1 stands at the right leaf and nothing is allocated |
| SfsState.AppendedKeeps | Lab8/code/tools/mksfs.c:397-426 | an append keeps every invariant: one role for each block number, every inode's map, one owner for each block, link counts, hash chains |
| SfsState.SearchWouldFind | Lab8/code/tools/mksfs.c:182-199 | a search for a pointer block would find it exactly when its number hashes like 0, as the number of the first block of a small image does not |
| SfsState.HashInNumbers | Lab8/code/tools/mksfs.c:46-57 | the chains of four numbers, and that of a 64-bit number is that of its low half |
| Sfs.Builder.AllocIno | Lab8/code/tools/mksfs.c:173-180 | numbers are handed out in order until none is left, and unused_blocks is always ninos - next_ino |
| Sfs.Builder.AllocCacheBlock | Lab8/code/tools/mksfs.c:182-190 | a zeroed block under the hash of the parameter, not of the number |
| Sfs.Builder.SearchCacheBlock | Lab8/code/tools/mksfs.c:192-199 | the chain of the number itself is searched, exactly |
| Sfs.Builder.UpdateCache | Lab8/code/tools/mksfs.c:382-395 | the three ways, with a count of how often the third, the search, is taken |
| Sfs.Builder.DoubleStage | Lab8/code/tools/mksfs.c:414-421 | the double-indirect stage never searches, although it shares l1 with the indirect stage |
| Sfs.Builder.MapBlock | Lab8/code/tools/mksfs.c:402-421 | the inode maps one block more, by pointer blocks newly allocated in order; it fails only at the size limit or when the image is full |
| Sfs.Builder.AppendBlock | Lab8/code/tools/mksfs.c:397-426 | the block becomes the next of the file, all other inodes are unchanged, and next_ino advances by exactly the pointer blocks the new count requires |
| Sfs.Builder.AllocCacheInode | Lab8/code/tools/mksfs.c:201-212 | a fresh inode at the head of its hash chain |
| Sfs.Builder.SearchCacheInode | Lab8/code/tools/mksfs.c:214-221 | finds an inode of that host number exactly when there is one |
| Sfs.Builder.AddEntry | Lab8/code/tools/mksfs.c:428-437 | the directory gains one block of 256, in which a reader finds the inode number and the name up to 252 characters, whatever the static buffer held; the named inode gains one link; nothing else changes; the buffer keeps what lies behind the terminator |
| SfsEntry.EntryReads | Lab8/code/tools/mksfs.c:428-437 | for every buffer, number and name of at most 255 characters: the 4 bytes of the number, the name, its terminator and what the buffer held behind it, cut at 256 characters and padded to a block, read back as the number and the name cut at 252 |
| SfsEntry.NameWhole | Lab8/code/tools/mksfs.c:428-437 | the name in that block is the whole name exactly when it has at most 252 characters |
| SfsEntry.EntryCharacters | Lab8/code/tools/mksfs.c:428-437 | the characters of the block: four of the number, low byte first, the name, its terminator if it fits into 256, and zeros from there on |
| SfsTree.FilesByHost | Lab8/code/tools/mksfs.c:449-457 | in the representation of a tree two names of regular files stand for one inode exactly when they have one host inode |
| SfsWalk.DirGoesOn | Lab8/code/tools/mksfs.c:474-512 | walking one more item keeps the directory a representation of the items so far |
| Mksfs.OpenFile | Lab8/code/tools/mksfs.c:516-530 | the file's blocks hold the data in order, the last padded; the assertion on short reads holds |
| Mksfs.OpenLink | Lab8/code/tools/mksfs.c:532-542 | one block with the target; a target of a whole block or more, and no other, ends the program |
| Mksfs.AddFile | Lab8/code/tools/mksfs.c:449-457 | the entry names the one inode with that host number, the one there was if there was one; a new file is copied; no other inode of that host number is made |
| Mksfs.AddLink | Lab8/code/tools/mksfs.c:459-464 | the entry names an inode that did not exist before, and is the only one to name it; a target that is too long ends the program |
| Mksfs.AddDir | Lab8/code/tools/mksfs.c:439-447 | the assertion that the host directory was not met before holds; its inode represents it, and its entry is added last |
| Mksfs.OpenDir | Lab8/code/tools/mksfs.c:466-514 | after the walk the directory represents its visible items, recursively; files with one host number share one inode and every link has one to itself; link counts of directories are 2 plus subdirectories, and other directories' counts change only by the entry ".."; the inodes made are one for each directory, each link and each different host file; it does not survive a name or target too long, and otherwise fails only for a full image or a file too big |
| SfsWalk.InodeCount | Lab8/code/tools/mksfs.c:201-221 | there are as many inodes as directories, links and different host files |
| SfsImage.CreateSfs | Lab8/code/tools/mksfs.c:223-256 | refused exactly when no block is left beside the bitmap; the size is truncated to 32 bits before it is capped |
| SfsImage.UsedExactly | Lab8/code/tools/mksfs.c:223-231 | the blocks used are those of the file, up to the limit, exactly when their number is below 2^32 or its low 32 bits reach the limit; a file of 2^32 blocks counts as empty |
| SfsImage.FillBitmap | Lab8/code/tools/mksfs.c:316-331 | the bits set in a bitmap block are exactly those of its free blocks |
| SfsImage.WriteBitmap | Lab8/code/tools/mksfs.c:315-333 | the bitmap blocks are written to the blocks from 2 on, none of them in use |
| SfsImage.FlushCaches | Lab8/code/tools/mksfs.c:336-348 | every pointer block and every inode is written, found through the hash chains |
| SfsImage.CloseSfs | Lab8/code/tools/mksfs.c:312-349 | superblock, bitmap, inodes, pointer blocks and the blocks of the walk fill exactly the numbers below next_ino, none written over another |
| SfsImage.AllWritten | Lab8/code/tools/mksfs.c:312-349 | the bitmap blocks fill exactly the gap before the first number that can be allocated, and no number has two roles |
| SfsDisk.ReadsBack | Lab8/code/tools/mksfs.c:312-349 | every finished inode reads back from the closed image, through its pointer blocks, as what it was finished as; a directory or link is named by exactly as many entries as it was finished with |
| SfsDisk.ChunksBack | Lab8/code/tools/mksfs.c:516-530 | the first bytes of a file's blocks are its data, and the rest is zero |
| SfsDisk.FreeCount | Lab8/code/tools/mksfs.c:316-335 | as many bits of the bitmap are set as the superblock says are unused |
| SfsDisk.MarkedIff | Lab8/code/tools/mksfs.c:316-331 | the bitmap of the closed image marks block g free exactly when next_ino <= g < ninos |
| SfsLayout.SmallestImage | Lab8/code/tools/mksfs.c:223-240 | an image file is refused exactly when it has less than 4 blocks of 4096 bytes, in 32 bits; never more than 524288 blocks are used |
| SfsLayout.FixedBlocks | Lab8/code/tools/mksfs.c:312-349 | superblock, root and bitmap of the closed image are in blocks 0, 1 and from 2 on, one bitmap block for every 32768 |
| SfsLayout.MarksInNumbers | Lab8/code/tools/mksfs.c:316-331 | bit g mod 32 of word (g mod 32768) / 32 of block 2 + g / 32768 is set exactly when block g is free |
| SfsLayout.BlocksInNumbers | Lab8/code/tools/mksfs.c:397-426 | a reader of the closed image finds blocks 0 to 11 of a file in the inode, the next 1024 in one pointer block, and the others in pointer blocks a pointer block names |
| SfsLayout.ZeroBeyond | Lab8/code/tools/mksfs.c:397-426 | at every index beyond a file's blocks a reader of the closed image finds the number 0, in the inode and in its pointer blocks |
| SfsLayout.SizeInNumbers | Lab8/code/tools/mksfs.c:397-426 | a file of n blocks has 0, 1 or 2 + (n - 1036) / 1024, rounded up, pointer blocks besides, and no file more than 32768 blocks |
| SfsDisk.LinkCounts | Lab8/code/tools/mksfs.c:428-437 | each inode's nlinks is the number of directory entries of the image that name it, modulo 2^16 |
| SfsDisk.Accounts | Lab8/code/tools/mksfs.c:173-221 | next_ino has advanced by exactly the inodes but the root, the blocks of every inode, and the pointer blocks each block count requires |
| SfsImage.CreateImg | Lab8/code/tools/mksfs.c:544-559 | from an empty image file to a closed image: it represents the host directory as a reader finds it, hard links to one host file as one inode; link counts, bitmap and block numbers balance, the inodes being the root and one for each directory, link and different file of the host; a name or target too long is never passed, and every failure has one of the named reasons |
| SfsImage.DirectoryRead | Lab8/code/tools/mksfs.c:466-514 | in every directory of the closed image a reader finds the directory itself and its parent, then, in the order of the host, an entry for each file, directory and link whose name starts with no dot, with its name as stored and an inode that represents it, and no other: no later name starts with a dot |
| SfsTree.FitsWhen | Lab8/code/tools/mksfs.c:485-487 | what fits, in numbers: outside names with a leading dot, names of at most 255 characters and link targets of at most 4095 |
| Dtb.Swap32 | Lab2/codes/kern/driver/dtb.c:29-32 | the byte swap of a little-endian load is the big-endian value |
| Dtb.Swap64 | Lab2/codes/kern/driver/dtb.c:34-37 | so is that of two swapped halves |
| Dtb.StrLen | Lab2/codes/kern/driver/dtb.c:53-54 | the length of the node name is found without reading beyond it |
| Dtb.ReadToken | Lab2/codes/kern/driver/dtb.c:48-99 | after any token the cursor stands on the next one, 4-aligned, in the right mode |
| Dtb.TokenBytes | Lab2/codes/kern/driver/dtb.c:21-26 | the bytes of the four tokens, as section 5.4.1 of the Devicetree Specification gives them |
| Dtb.ReadProperty | Lab2/codes/kern/driver/dtb.c:71-88 | a reg of at least 16 bytes is taken only inside memory mode; otherwise the data is skipped with its padding |
| Dtb.ExtractMemoryInfo | Lab2/codes/kern/driver/dtb.c:40-101 | on any serialised token stream, ended by any other token, the loop ends and returns what the stream holds, or -1 exactly when there is nothing to take |
| DeviceTree.FindStrips | Lab2/codes/kern/driver/dtb.c:91-92 | tokens that mean nothing change nothing |
| DeviceTree.FindNode | Lab2/codes/kern/driver/dtb.c:46-100 | what the reader takes from the tokens of any tree |
| DeviceTree.RightWithReg | Lab2/codes/kern/driver/dtb.c:56-85 | if every memory node carries a reg of at least 16 bytes, the reader takes that of the first memory node in document order, and nothing exactly when there is none |
| DeviceTree.RightExactly | Lab2/codes/kern/driver/dtb.c:56-85 | for all trees: the reader takes the first memory node with a usable reg exactly when, in document order, every stray node, one that is not a memory node, is read in memory mode because it is the first child of a node that is, and has a usable reg, comes after a memory node with a usable one |
| DeviceTree.TakenFromChild | Lab2/codes/kern/driver/dtb.c:56-85 | a memory node without a reg, whose first child has one: the child's is taken |
| DeviceTree.BootMemory.DtbInit | Lab2/codes/kern/driver/dtb.c:107-142 | the recorded memory is that of the node taken; a missing blob, a wrong magic number or nothing found leaves it alone |
| DeviceTree.RecordsMemory | Lab2/codes/kern/driver/dtb.c:46-142 | in bytes: when the first node of the tree with a usable reg is named by the six letters of memory and anything behind them, the two numbers of its first usable reg are recorded |
| DeviceTree.RecordsNothing | Lab2/codes/kern/driver/dtb.c:56-62 | in bytes: when no name in the tree starts with those six letters, nothing is recorded |
| Strtol.StrnLen | Lab2/codes/libs/string.c:33-40 | the smaller of length and limit, without reading beyond |
| Strtol.StrToL | Lab2/codes/libs/string.c:203-259 | blanks, sign, prefix and digits are read as the parse of the text says, the value wrapped to a 64-bit long |
| Strtol.DigitsRead | Lab2/codes/libs/string.c:232-253 | a row of digits followed by no digit is read to its end |
| Strtol.ReadsWritten | Lab2/codes/libs/string.c:203-259 | blanks and tabs, a sign, a number in any base from 2 to 36 in capital digits, and something that ends it: strtol reads the number and stops behind it |
| Strtol.CaseIgnored | Lab2/codes/libs/string.c:239-244 | capital and small letters are read alike in every base, the x of a prefix aside |
| Strtol.NothingRead | Lab2/codes/libs/string.c:232-247 | a text that starts with no blank, sign, digit or letter is 0, and nothing of it is used |
| Strtol.CapitalPrefix | Lab2/codes/libs/string.c:221-224 | of the prefix 0X only the zero is read, in base 0 and in base 16 |
| PrintNum.DigitsValue | Lab2/codes/libs/printfmt.c:36-52 | the digits printed have the value of the number |
| PrintNum.RoundTrip | Lab2/codes/libs/printfmt.c:36-52 | for every number, strtol undoes printnum in base 8, 10 and 16 modulo 2^64, for any width, padded with spaces or zeros, and ends at the terminator |
| PrintNum.RoundTripAny | Lab2/codes/libs/printfmt.c:36-52 | strtol in base 0 reads a decimal number padded with spaces or not at all |
| PrintNum.ZeroPaddedAny | Lab2/codes/libs/string.c:221-230 | padded with zeros it is read right in base 0 exactly when there is no padding or the number is below 8 |
| PrintNum.BaseOneStays | Lab2/codes/libs/printfmt.c:39-44 | in base 1 every call passes the number on as it is, so that the recursion has no end |
| PrintNum.LargerBaseEnds | Lab2/codes/libs/printfmt.c:39-44 | in every larger base the number falls below the base after finitely many calls |
| PrintNum.RoundTripOctal | Lab2/codes/libs/string.c:221-230 | and an octal number with a zero in front |
| PrintNum.HexRoundTrip | Lab2/codes/libs/string.c:221-230 | with 0x in front, base 0 and base 16 read a hexadecimal number, padded with zeros or not at all |
| PrintNum.NegativeRoundTrip | Lab2/codes/libs/printfmt.c:226-233 | a negative number is read back exactly when no space comes between its sign and its digits |
| PrintFormat.Literal | Lab2/codes/libs/printfmt.c:124-129 | characters before the next escape are printed as they stand |
| Printf.SprintBuf.Put | Lab2/codes/libs/printfmt.c:290-296 | the count is of everything put; the buffer keeps what fits |
| Printf.Printnum | Lab2/codes/libs/printfmt.c:36-52 | the padding and the digits, by recursion on the number |
| Printf.PutString | Lab2/codes/libs/printfmt.c:203-222 | precision cuts, width pads on the side the flag says, # hides what is not printable |
| Printf.ReadFlags | Lab2/codes/libs/printfmt.c:136-181 | the flags of an escape: padding, width, precision, length, alternate form, numbers taken from the arguments |
| Printf.PutError | Lab2/codes/libs/printfmt.c:189-200 | the error's text, by a nested format |
| Printf.PutEscape | Lab2/codes/libs/printfmt.c:131-275 | one round of the outer loop ends beyond its '%', even when an escape that is not recognised is rewound |
| Printf.Vprintfmt | Lab2/codes/libs/printfmt.c:116-276 | every format and fitting arguments: the text of the format is printed, and the loop ends |
| Printf.Vsnprintf | Lab2/codes/libs/printfmt.c:328-339 | returns the length of the whole text, stores its first min(length, size - 1) characters and a terminator, and writes nothing else; a missing or empty buffer is refused untouched |
| Printf.LongRoundTrip | Lab2/codes/libs/printfmt.c:226-262 | for every 64-bit value, what %ld prints strtol reads back in base 10 as the same long |
| Printf.PointerRoundTrip | Lab2/codes/libs/printfmt.c:248-262 | for every 64-bit pointer, what %p prints strtol reads back in base 0 as the long of the same 64 bits |
| PrintLaws.UnsignedRoundTrip | Lab2/codes/libs/printfmt.c:235-262 | %x, %o and %u, with and without l, for every width, with spaces or zeros: the digits at the right of the field, and strtol reads them in base 16, 8 and 10 as the word or its low 32 bits |
| PrintLaws.SignedRoundTrip | Lab2/codes/libs/printfmt.c:226-233 | %d likewise, its sign before the field and not counted by the width; strtol reads it back exactly when no space follows the sign |
| PrintLaws.PointerField | Lab2/codes/libs/printfmt.c:248-254 | %p for every width: 0x before the field; strtol in base 0 reads it back exactly when no space follows |
| PrintLaws.StarWidth | Lab2/codes/libs/printfmt.c:157-159 | a width taken from the arguments gives the text of the same width in the format |
| PrintLaws.StringField | Lab2/codes/libs/printfmt.c:203-222 | %n.ms and %-n.ms: the string cut at m characters, at the right or the left of a field of n, with spaces |
| PrintLaws.NullString | Lab2/codes/libs/printfmt.c:203-206 | a null string prints as (null) |
| PrintLaws.PrecisionZero | Lab2/codes/libs/printfmt.c:142-164 | a precision of 0 written in the format is taken for the flag 0, and nothing is cut |
| PrintLaws.ShownString | Lab2/codes/libs/printfmt.c:212-217 | %#s shows a question mark for every character that is not from space to tilde, and the others as they are |
| PrintLaws.CharOut | Lab2/codes/libs/printfmt.c:183-186 | %c prints the low byte of its argument, whatever the flag and the width |
| PrintLaws.ErrorOut | Lab2/codes/libs/printfmt.c:189-200 | %e prints the six error texts for the numbers 1 to 6 and their negatives, and otherwise the word error and the number, which strtol reads |
| PrintLaws.PercentOut | Lab2/codes/libs/printfmt.c:264-274 | %% prints one percent sign, and an escape with an unknown letter is printed as it stands, flags and width included |

## Left out

- kmem_cache, kmalloc and kfree of slub_pmm.c: all caches share one static structure and every object is one page.
- default_pmm.c and the copies of these files in other labs: the same algorithms again.
- The self-tests, cprintf tracing, console, traps, processes and virtual memory.
- The buddy allocator's free lists are sequences in fields, not rings of entries; list.h itself is modelled in `ListH`.
- Buddy.BuddyPmm.constructor: the page array's length is a multiple of the largest block, and no page carries a mark; otherwise the merge test reads beyond the array or trusts a foreign mark.
- Buddy.ComputeLog2Ceil: C leaves a shift by its width or more undefined; the model takes the count modulo 32, as the RISC-V instruction does.
- BestFit.FreePages: on the list that the tail path leaves, frees are not modelled. BestFit.InitMemmap likewise.
- BestFit.AllocPages: on that list, requests that the self-linked block does not fit exactly, or that another block serves better, are not modelled.
- Mksfs.OpenDir: host calls (stat, readdir, open, read, readlink, chdir) are the tree; they do not fail, a regular file is read in full blocks but for the last, and inode numbers identify host objects (one file system, number 0 unused, no directory met twice). Exits of the program are the result false, without their messages.
- Cached inodes and pointer blocks are values in maps under their block numbers, not linked structures; the cursors l1 and l2 are block numbers, 0 for NULL.
- SfsImage.CloseSfs: the superblock's magic and info fields are constants and are left out.
- Dtb.ExtractMemoryInfo: blobs that hold no serialised token stream are not modelled; addresses are offsets into the blob, which is loaded 4-aligned and shorter than the address space.
- Printf.Vprintfmt: arguments are a sequence of 64-bit words and strings that fits the format; %e of the least int is not admitted. Counts and widths are unbounded integers. `-` before a number pads with that character, as the code does.
- Printf.Vsnprintf: the only sink is the string buffer; printing to the console puts the same characters.
- Strtol.StrToL: C leaves the overflow of a signed long undefined; the model wraps it, as the RISC-V instructions do.
- SkewHeap.RemoveEntry: comp is a pure function and the node is one of the heap; what the source does with foreign nodes is not described.
