# A verified model of tsalloc

tsalloc is a two-tier memory allocator. Its lower tier is a span cache per arena: it maps memory,
cuts it into page-sized spans, finds neighbours through a page trie, joins them when they are
freed, and keeps the free ones in bins by size class. Its upper tier carves slabs of equal blocks
out of spans. This project models both tiers, the size-class arithmetic they share, and the locks
and pools they stand on, and proves what each part keeps over all inputs, all runs and, for the
mutex and the trie, all interleavings.

## How the files fit together

| Part | Files |
|---|---|
| size classes, slab geometry, small alignments | `SizeClasses`, `SlabGeometry`, `AlignedAlloc`, `Bits`, `Lists` |
| span cache: state and operations as functions | `SpanState`, `SpanOps`, `SpanGet`, `SpanPut`, `SpanMerge`, `SpanAligned`, `SpanDecay` |
| span cache: invariants and what each step keeps | `SpanInvariants`, `SpanSteps`, `SpanSizes`, `SpanFrames`, `SpanRecords`, `SpanRoom`, `SpanFlags` |
| span cache: when a call succeeds and what it leaves, what makes a span retained, what the epoch counters say | `SpanAnswers`, `SpanReturns`, `SpanStates`, `SpanEpochs` |
| span cache: whole runs, any number of arenas, who owns what, what is unmapped | `SpanRuns`, `SpanResults`, `SpanLedger`, `SpanSystem`, `SpanCalls` |
| span cache: short runs on which something goes wrong | `SpanWitness` |
| span cache: the imperative cache, and the links of its list of origins | `SpanCache`, `OriginLinks` |
| the structures behind it | `PairingHeap`, `PageTrie`, `LinkedList`, and `SpanLinks`, which ties heap and trie to the span cache |
| concurrency | `Mutex`, `TrieReaders` |
| slabs, pails, object pools | `Slab`, `Pail`, `PailLinks`, `SlabSupply` (pails on the span cache), `ObjectPool` |

The span cache is modelled twice. `SpanState` and its companions say, branch by branch, what every
operation does to the whole state (spans, trie, bins, bitmap, origins, epoch). The class
`SpanCache.Scache` does the work in place, and every one of its methods is proved to leave exactly
the state the function gives, so the theorems about the functions are theorems about the methods.

The central invariant, `SpanInvariants.CoreInv`, has these parts: every live span is page-aligned,
a whole number of pages, and carries the class of its size; every page of a live span looks up to
that span and no entry of the trie names a dead descriptor; a span is free exactly when it is in
the one bucket its own flags name; counts, bucket bitmaps and the class bitmap say what is in the
buckets. `CoalescedInv` adds that no two neighbours of one age are both free, `ListedInv` that
the origins list has exactly the spans with an unmap record, and `OriginsInv` that those are the
spans that start a mapping, each with the mapping's size. Where mappings are merged a joined span
takes the older age, so a span need not lie in the mapping its age names; `BlendInv` says what is
left: between two pages of one age every page is mapped and none is younger. `CoalescedInv` is kept
there as well. What an arena unmaps in the end, mappings merged or not, is in `SpanCalls`; its
`CallsTile` says that the spans with a record name every mapped page exactly once.

The links of the origins list live in the records. `Scache` has them as they are in the code, a head,
a tail and, in `coords`, a pair of neighbours for exactly the spans with a record; the sequence
`origins` beside them is ghost. The methods that push, remove and pop look the neighbours up in
`coords`, so Dafny accepts them only where those records are known to exist, and each is proved to be
the change of the sequence (`OriginLinks.PushedChained`, `OriginLinks.ClosedChained`). `PushSafe` and
`CoalesceSafe` say in terms of the state when the records exist, and `SpanRuns.StepSafe` says it of a
whole step. Where it fails the code writes through a null pointer: the functions then still name a
state, but no method reaches it, and no theorem about runs speaks of it.

## What the environment is assumed to do

- The mapper answers with page-aligned memory below 2^48 that no arena has mapped already.
- The page size, the minimum alignment, the steps per power of two and the largest slab size are
  powers of two; where the span cache is concerned the page size is at least 4096.
- Fewer than 2^28 spans are minted where a statement relies on ages telling mappings apart
  (`SpanRuns.Young`); nothing else needs it.
- `madvise` succeeds or is absent.
- Atomics are sequentially consistent.
- Callers free only spans and blocks that were handed out to them.
- Descriptor and node pools answer as they like; a descriptor they hand out is not a live one.

## Where the code does less than one might hope

Each of these is stated with the exact condition under which the code does meet the stronger claim.

- A hit in the bin of the requested class is handed out as it is, and bins hold sizes rounded up.
  So a span smaller than its class size can be handed out, exactly when the first span of that bin
  is smaller (`SpanSizes.FullSizeIff`). On the profile for 4 KiB pages two gets are enough: who asks
  for ten pages gets nine (`SpanWitness.NinePagesForTen`). A slab still fits if a page holds at
  least eight units of the minimum alignment (`SpanSizes.SlabFitsGot`).
- When an aligned split fails, the span that was taken is not put back. That happens exactly when a
  span is taken and either a descriptor for a piece cannot be had, or there is no room, which a
  caller can tell beforehand: the alignment and the class size together are more than 2^62, or the
  bin of the class they are looked up under is not empty and its first span is smaller than that
  (`SpanRoom.LeaksIff`, `SpanRoom.NoRoomIff`; on a run, `SpanWitness.AlignedGetLoses`). The lost span
  stays in the trie, marked free and in no bin. A neighbour that is freed still merges with it, and
  the bin it is then taken out of counts one span too few (`SpanRoom.LeakLeaves`,
  `SpanRoom.LostMerges`, `SpanRoom.LostSpoilsCounts`).
- A request for more than 2^62 bytes including its alignment is not refused. It is looked up as
  class 0, and whatever span is found for that, or else a newly mapped one, is lost
  (`SpanRoom.OverLimitLeaks`).
- A request that stays within the slab limit including its alignment is looked up under the number
  of a slab class. That is the right class exactly when the minimum alignment is a page; otherwise
  it is too high, and spans in the bins below it that would do are not looked at
  (`SpanRoom.SlabRangeIff`).
- An aligned split takes the unmap record from the span it cuts up and leaves the span in the list of
  origins, whose links were in the record. That happens exactly when that span had a record
  (`SpanRecords.GetAlignedListed`). From then on destroying the cache, and any push or removal next
  to that span in the list, goes through a null pointer. With records kept, an aligned get that maps
  memory does this on a new cache, and the next one like it already writes through the null pointer
  (`SpanWitness.SecondAlignedGetUnsafe`). Without such a split no operation ever meets a missing
  record, whether or not mappings are merged (`SpanRuns.StepListed`, `SpanRuns.RunListed`).
- Where mappings are merged, joining a span with a record to a left neighbour without one puts the
  record on the left one: its address then goes with the size of the mapping behind. That happens
  only in a put, exactly when the span that stays has no record and one it takes in has, and then a
  page is named by two records (`SpanCalls.PutTiles`); a later put may mend it, but if the cache is
  destroyed before, that page is unmapped twice (`SpanCalls.OverlapUnmaps`; on a run of three
  steps, `SpanWitness.MergeUnmapsTwice`). Without such a put, and without an aligned split of a span
  with a record, every mapped page is unmapped exactly once, merged or not
  (`SpanCalls.StepTiles`, `SpanCalls.RunUnmapsOnce`).
- Merging takes free spans out of their bins without lowering the bins' epoch counters, so a counter can
  end up above what the bin has held since the last decay. Only a put does that, exactly when it takes
  more spans off a bin than the bin had above its counter (`SpanEpochs.PutTooHighIff`,
  `SpanEpochs.StepNotTooHigh`).
- Where mappings are merged a put takes in one neighbour on each side. What it leaves still has a free
  neighbour exactly where the one it took in had one on its far side (`SpanReturns.CrossPutMeetsIff`).
- When a span was cut and then its slab metadata cannot be had, the cut and the rest are both put
  back without being joined (`SpanGet.GetSpanApart`, `SpanGet.ServeSplits`; on a run,
  `SpanWitness.FailedSlabSplits`).
- The block size and the free count of a slab have 16 bits. Blocks lie apart exactly when their
  size is below 65536 (`Slab.BlocksDisjointIff`, and for all the slabs of a pail
  `Pail.BlocksApartIff`); the profile for 2 MiB pages has larger ones (`Slab.OverlapAt81920`). Of a
  size that is a multiple of 65536, which that profile also has, all blocks of a slab are handed out
  at one address, and the first put divides by zero (`Slab.AddressesDifferIff`,
  `Slab.OneAddressAt65536`). `Pail` follows the code at every other size, overlapping blocks
  included: its addresses are those of the 16-bit stride, and only `Pail.BlocksApart` needs more.
- A slab of n blocks hands out n mod 65536 of them, so all of them exactly if n is below 65536
  (`Slab.NewSlabServes`). A 2 MiB page with a minimum alignment of 8, which the configuration script
  accepts, gives 262144 blocks: the counter starts at 0, the first get succeeds with a null block,
  and the slab leaves the registry with all its blocks in it (`Slab.FirstGet`).
- The rollback of a failed trie insert stores null, not the old value. It restores the map exactly
  when the range was empty (`PageTrie.RollbackRestoresIff`).
- The class formulas need the steps per power of two to be a power of two, which the configuration
  script does not check (`SizeClasses.ServesIffPow2Steps`), and slabs fit the spans of their
  index only under the condition in `SlabGeometry.FitsIff`.
- The rounding of an aligned request wraps around near 2^64. It then gives 0, which is refused, as are
  requests for 0 bytes and for more than 2^62; none is served with less than it asked for
  (`AlignedAlloc.AlignedResult`).
- The rounding of a pool's chunk size wraps around near 2^64 (`ObjectPool.ChunkHoldsIff`).
- The number of spans to decay is cut to 32 bits, and the model does the same.

## Model

| member | source | states |
|---|---|---|
| SizeClasses.GetSlabSizeClasses | src/config/config.py:58-73 | the loop yields exactly the slab class table, or refuses when it has more than 65535 entries |
| SizeClasses.GetSpanSizeClasses | src/config/config.py:75-92 | the same for the span class table up to 2^62 |
| SizeClasses.NthSlabIs | src/config/config.py:58-73 | closed form of the n-th slab class, independent of the loop |
| SizeClasses.NthSpanIs | src/config/config.py:75-92 | closed form of the n-th span class, independent of the loop |
| SizeClasses.SpanClassBracket | src/config/tsalloc_config.h:110-140 | the shift formula brackets every request between two consecutive class sizes |
| SizeClasses.SpanClassIsLeast | src/config/tsalloc_config.h:110-140 | for every request up to 2^62 the formula gives the least class of the script's table that holds it |
| SizeClasses.SpanClassOfSize | src/config/tsalloc_config.h:110-140 | the formula inverts the generator: a class size is its own class |
| SizeClasses.SpanWaste | src/config/tsalloc_config.h:110-140 | above `steps` pages less than one part in `steps` of the request is wasted |
| SizeClasses.ServesIffPow2Steps | src/config/config.py:56 | formula and table agree for all requests if and only if the steps are a power of two |
| SizeClasses.BuildLookup | src/config/config.py:262-267 | the loop never runs off the table, and the result maps every multiple of the unit to the least class that holds it |
| SizeClasses.LargestSlab | src/config/config.py:58-73 | the slab limit is itself a class, which is what keeps the lookup loop inside the table |
| SizeClasses.SlabClassIsLeast | src/config/tsalloc_config.h:58-81 | the lookup gives the least slab class that holds the request |
| SlabGeometry.GetSlabInfos | src/config/config.py:94-114 | the loop computes, for each class, the slab size and the running minimum of block counts |
| SlabGeometry.SlabSizeIs | src/config/config.py:103-106 | a slab is the fewest whole pages that hold four blocks, and as many as fit one page |
| SlabGeometry.NBlocksIsLeast | src/config/config.py:108-109 | the blocks of a class are as many as fit its slab or that of some smaller class, whichever holds the fewest |
| SlabGeometry.NBlocksBounds | src/config/config.py:94-114 | at least four blocks, and the blocks fit the slab |
| SlabGeometry.BitmapFits | src/config/config.py:45-53 | the reserved bitmap has a bit for every block of every class |
| SlabGeometry.FitsIff | src/config/config.py:94-114 | every slab fits every span of its index if and only if a page holds eight units or the table is degenerate |
| AlignedAlloc.AlignUpWordMultiple | src/internal/common.h:34 | the masked rounding gives a multiple of the alignment: the true one short of wrapping, zero otherwise |
| AlignedAlloc.SlabClassAligned | src/tsalloc.c:72-76 | the least slab class at or above a multiple of a power of two is a multiple of it |
| AlignedAlloc.BlockAligned | src/slab.c:100-106 | every block of a slab of that class at an aligned base is aligned |
| AlignedAlloc.RouteIff | src/tsalloc.c:53-88 | refused exactly if the alignment is no power of two; rounded exactly up to a page; above, passed on with its own alignment and size |
| AlignedAlloc.AlignedResult | src/tsalloc.c:53-88 | every request on that route is rounded to a size that holds it and is less than one alignment larger, on aligned blocks only, or is refused; where the rounding wraps it gives 0, which is refused |
| PairingHeap.Merge | src/internal/genheap.h:29-70 | two heaps become one, with all their nodes, ordered, the root without links above it |
| PairingHeap.MergePairs | src/internal/genheap.h:82-166 | the first pass turns the children into a chain of heaps of the same nodes, touching no other node |
| PairingHeap.MergeChain | src/internal/genheap.h:82-166 | the second pass turns the chain into one heap of the same nodes |
| PairingHeap.Bucket.Pop | src/internal/genheap.h:82-166 | takes out a node such that every other is younger, or as old and at no lower address, keeps the rest as a heap, clears the links |
| PairingHeap.Bucket.Insert | src/internal/genheap.h:177-200 | adds exactly the node; null is ignored |
| PairingHeap.Bucket.Remove | src/internal/genheap.h:211-257 | removes exactly the given node wherever it is; a node in no heap changes nothing |
| Mutex.RunInv | src/internal/mutex.h:120-186 | the invariant of holders and wake-ups holds in every state of every run, for any number of threads |
| Mutex.MutualExclusion | src/internal/mutex.h:120-186 | two threads inside are one, the word is not free, and the recorded owner is it, whoever calls unlock |
| Mutex.StrayUnlock | src/internal/mutex.h:164-186 | an unlock by a thread that does not hold the lock changes nothing |
| Mutex.HolderUnlock | src/internal/mutex.h:164-186 | the holder's own unlock is never taken for a stray one |
| Mutex.NoLostWakeup | src/internal/mutex.h:120-186 | with a thread parked, the word says so, or a token, a post or a woken thread exists |
| Mutex.QuietIffNoStep | src/internal/mutex.h:120-186 | the definition of rest: no thread amid lock or unlock can do anything |
| Mutex.NeverStuck | src/internal/mutex.h:120-186 | the system never rests with a thread parked and nobody inside |
| Mutex.Handover | src/internal/mutex.h:120-186 | a thread parked and the lock free: at most three steps hand it over |
| Mutex.RunTokens | src/internal/mutex.h:120-186 | over every run, tokens and posts under way are never more than the exchanges waiters have made |
| Mutex.RunNoWaiters | src/internal/mutex.h:120-186 | over every run in which nobody gave up spinning, the semaphore is 0, nobody posts, and the word is free or locked |
| Mutex.SpunThrough | src/internal/mutex.h:120-162 | a thread gives up spinning only after a look at the word in every round |
| Mutex.LockUnlock | src/internal/mutex.h:120-186 | a thread by itself locks in four steps and unlocks in four, and everything is as before |
| PageTrie.SameIndices | src/pagetrie.c:167-169 | the three indices tell pages apart exactly by their low 36 bits |
| PageTrie.FillAt | src/pagetrie.c:158-216 | an insert changes exactly the slots of its range |
| PageTrie.Trie.MakePath | src/pagetrie.c:171-213 | nodes are added zeroed, as many as were missing, no entry changes, and it fails if and only if the pool has fewer |
| PageTrie.Trie.Insert | src/pagetrie.c:130-221 | refines the map update; the exact overflow test; takes from the pool what it adds; out of memory only with the pool empty and a node missing for the page named, and then what rollback leaves |
| PageTrie.Trie.Rollback | src/pagetrie.c:30-63 | stores null for the whole range, skipping pages without nodes |
| PageTrie.Trie.Lookup | src/pagetrie.c:282-314 | gives the map's value for the page |
| PageTrie.RollbackRestoresIff | src/pagetrie.c:30-63 | a rolled back insert restores the map if and only if the range was empty |
| TrieReaders.RunInv | src/pagetrie.c:130-221 | under any interleaving the nodes form the map and every reader is on its key's path |
| TrieReaders.LookupStep | src/pagetrie.c:282-314 | a reader's step either keeps it going or ends it with the map's value at that very moment |
| TrieReaders.LookupLinearizes | src/pagetrie.c:282-314 | every finished lookup returned the map's value at some moment between its first and last load |
| TrieReaders.LookupWaitFree | src/pagetrie.c:282-314 | a lookup under way can always go on, and every step of its own leaves fewer of its at most three loads |
| TrieReaders.InsertEnds | src/pagetrie.c:130-221 | over every run: between the start of an insert and its end every slot of the range comes to hold the data, or null is left for the pages before one that lacks a node; no other slot has changed |
| TrieReaders.InsertCanSucceed | src/pagetrie.c:158-216 | from any idle state in order, with nodes to be had, an insert of any range can come to its end with every slot holding the data |
| TrieReaders.InsertCanFail | src/pagetrie.c:171-205 | and it can fail at any page that lacks a node of its own, leaving null in the pages before |
| TrieReaders.WriterWaitFree | src/pagetrie.c:130-221 | in every state of every run an insert or its rollback can go on, and every step of it leaves less to do |
| LinkedList.List.PushFront | src/internal/genlist.h:230-254 | the node comes first, the order of the rest stays, all links agree; null is ignored |
| LinkedList.List.Remove | src/internal/genlist.h:182-212 | exactly that node leaves, in place, and forgets its links; null is ignored |
| LinkedList.List.PopFront | src/internal/genlist.h:314-327 | the first node leaves; an empty list gives null |
| SpanInvariants.SetBitmapAt | src/scache.c:20-44 | setting or clearing a bit changes that bit only |
| SpanInvariants.BinPutKeeps | src/scache.c:125-141 | putting a span in its bin keeps the invariant of spans, buckets, counts and bitmaps |
| SpanInvariants.UnbinKeeps | src/internal/bin.h:96-146 | taking a span out of a bucket keeps it, and the span becomes dirty |
| SpanSteps.MintTrie | src/scache.c:183-259 | a new mapping keeps spans and trie in agreement |
| SpanSteps.CutTrie | src/span.c:124-197 | cutting a span in two keeps spans and trie in agreement |
| SpanSteps.JoinTrie | src/span.c:338-382 | joining two neighbours keeps spans and trie in agreement |
| SpanSteps.JoinBlend | src/span.c:374-377 | where mappings are merged a join, which takes the older age, never leaves a younger or unmapped page between two of one age |
| SpanSteps.JoinOrigins | src/span.c:348-366 | joining within a mapping keeps the origins list exact |
| SpanOps.MintIs | src/scache.c:183-259 | a mint is a fresh span entered in full, or nothing but the epoch and trie nodes changed; while the list has exactly the spans with a record, the push finds the record it writes to |
| SpanOps.FirstUnique | src/bucket.c:9-24 | the order of a bucket has no ties among the spans of an arena |
| SpanOps.PopKeeps | src/scache.c:143-181 | popping a bin keeps the core and leaves a span whose neighbours are not free |
| SpanOps.NotInside | src/scache.c:262-351 | no span starts or ends inside another |
| SpanAnswers.PopsBest | src/scache.c:46-88 | the bitmap finds nothing if and only if no free span has the class or a larger one; else it finds the class of the best: least class, then dirty before retained, then oldest, then lowest |
| SpanAnswers.GetFromBin | src/scache.c:607-719 | while there is such a span a get takes the best, cuts it to the class size if it is of a larger class, bins the rest, and maps nothing: every descriptor afterwards is named |
| SpanAnswers.GetFromMapper | src/scache.c:607-719 | otherwise it maps memory of the default class or its own, whichever is larger, and serves from that in the same way; or tells which answer was missing and changes nothing but the epoch and trie nodes |
| SpanAnswers.GetWorksIff | src/scache.c:607-719 | a get succeeds if and only if such a span exists or else memory, descriptor and trie nodes can be had, a descriptor for the cut if it is of a larger class, and slab metadata if a slab is asked for |
| SpanAnswers.GetAlignedFromBin | src/scache.c:722-848 | an aligned get takes the best free span of its class, cuts it up at the first aligned address, bins the pieces on the sides, and maps nothing |
| SpanAnswers.GetAlignedFromMapper | src/scache.c:722-848 | without one it does so with a new mapping |
| SpanAnswers.GetAlignedWorksIff | src/scache.c:722-848 | it succeeds if and only if the best span, or else the new mapping, has room for size and alignment, and descriptors for the pieces are to be had |
| SpanGet.CutoutIs | src/scache.c:353-399 | in terms of the whole state: the tail is cut off, the rest binned; its trie insert cannot fail |
| SpanGet.CutoutCore | src/scache.c:353-399 | the cut has exactly the class size, the rest is free and lies next to it, the core is kept |
| SpanGet.OverfitRoom | src/scache.c:634-693 | a span of a larger class is larger than the request, so the split never finds it too small |
| SpanGet.PartMapped | src/scache.c:387-394 | inserting part of a mapped span finds all its nodes, so ignoring the result is sound |
| SpanGet.TakeCore | src/scache.c:143-181 | bins first, then a mint: either way the span in hand has the requested class or room to cut |
| SpanGet.ServeCore | src/scache.c:634-719 | the cut, the slab metadata and the flag keep the core; an overfit is cut to the class size |
| SpanGet.GetSpanCore | src/scache.c:607-719 | every call keeps the core, and what it hands out is a live allocated span |
| SpanGet.GetSpanApart | src/scache.c:607-719 | no two free neighbours remain if and only if it did not cut and then fail for slab metadata |
| SpanGet.ServeSplits | src/scache.c:634-719 | in that case two free neighbours remain |
| SpanSizes.FullSizeIff | src/scache.c:66-71 | the span has the class asked for, and its full size if and only if the bin's first span was not smaller |
| SpanSizes.SlabFitsGot | src/internal/pail.h:62-70 | the slab of an index fits the span got for it, on every path, when a page holds eight units |
| SpanMerge.AloneUnlessMerged | src/scache.c:262-351 | where the merge test fails there is no free neighbour of the same age |
| SpanMerge.RemoveKeeps | src/scache.c:90-123 | taking out any free span keeps the core |
| SpanMerge.JoinLonely | src/span.c:338-382 | a joined span has the outer neighbours of its two parts, and the older age it takes, if mappings are merged, brings none of that age with it |
| SpanPut.JoinedIs | src/scache.c:320-346 | the one trie insert at the end does what an insert after each join would |
| SpanPut.MergeAdjCore | src/scache.c:262-351 | merging keeps the core, in all four cases of left and right |
| SpanPut.MergeAdjNeat | src/scache.c:262-351 | and leaves no free neighbour of its age on either side, mappings merged or not |
| SpanPut.PutSpanCore | src/scache.c:567-605 | freeing a span keeps the core |
| SpanPut.PutSpanNeat | src/scache.c:567-605 | freeing a span leaves no two free neighbours of one age, mappings merged or not, and, if not, keeps the origins exact |
| SpanReturns.PutIs | src/scache.c:567-605 | a put merges exactly the span and its free neighbours; every descriptor afterwards is named: the merged one is dirty, unmarked and free, of the size, class and age of the whole |
| SpanReturns.PutDirty | src/internal/bin.h:167-187 | after a put every page of the freed span looks up to a free span around it that is dirty and in the dirty bucket of its class |
| SpanReturns.CrossPutMeetsIff | src/internal/span.h:236-264 | where mappings are merged a put takes in the free neighbour on either side, of any age, and what it leaves has a free neighbour exactly where that one had one on its far side |
| SpanAligned.PiecesTile | src/span.c:200-336 | the three pieces tile the span, the middle one is aligned, all are page-aligned, the right one is never empty |
| SpanAligned.SplitAndInsertIs | src/span.c:200-336 | the in-place split and its trie inserts are two cuts of the span, and drop its record |
| SpanAligned.GetAlignedCore | src/scache.c:722-848 | the core is kept if and only if the split does not fail; the span is aligned and of full class size |
| SpanAligned.GetAlignedNeat | src/scache.c:722-848 | a split that goes through leaves no two free neighbours |
| SpanAligned.GetAlignedOrigins | src/scache.c:722-848 | the origins stay exact if and only if the span cut up had no record |
| SpanRoom.NoRoomIff | src/scache.c:736-811 | for every alignment and class: the span taken is too small if and only if the padded size exceeds 2^62, or the bin of its class is not empty and its first span is smaller |
| SpanRoom.LeaksIff | src/scache.c:806-811 | the call loses its span if and only if one is taken and there is no room, or a descriptor is missing |
| SpanRoom.OverLimitLeaks | src/config/tsalloc_config.h:65-72 | beyond 2^62 the request is looked up as class 0, and every span taken for it is lost |
| SpanRoom.BulkClass | src/scache.c:736-738 | above the slab limit the class looked up is that of the padded size |
| SpanRoom.SlabRangeClass | src/config/tsalloc_config.h:74-81 | within the slab limit it is the number of the least slab class that holds the padded size |
| SpanRoom.SlabRangeIff | src/config/tsalloc_config.h:74-81 | that number is the right span class if and only if the minimum alignment is a page; otherwise it skips classes whose spans would do |
| SpanRoom.LeakLeaves | src/scache.c:806-811 | after the loss one span is in the trie, marked free, and in no bin; everything else holds |
| SpanRoom.LostMerges | src/internal/span.h:236-264 | a freed neighbour of the same mapping merges with the lost span |
| SpanRoom.LostSpoilsCounts | src/internal/bin.h:201-238 | taking the lost span out of a bin makes the bin's count wrong |
| SpanDecay.DecayLoopDoes | src/internal/bin.h:249-312 | exactly the first spans by age, then address, as many as there were rounds, go from dirty to retained, nothing else changes |
| SpanDecay.DecayDoes | src/scache.c:850-883 | the same for every bin, for min(epoch minimum, dirty) spans |
| SpanDecay.DecayFromKeeps | src/scache.c:850-883 | decay keeps every invariant |
| SpanStates.StepRetains | src/internal/bin.h:158-191 | no operation but a decay makes a span retained, and no operation leaves a retained span that is not free |
| SpanStates.RunRetains | src/internal/bin.h:158-191 | in every state of every run, every retained span is free and in the retained bucket of its class |
| SpanEpochs.StepLow | src/internal/bin.h:138-141 | exact for every operation: a decay sets a bin's epoch counter to its count, a request served from the bin lowers it to what is left, and nothing else touches it |
| SpanEpochs.RunLow | src/scache.c:850-883 | over every run the counter is the least of the bin's count at the last decay and of its counts after each request served from it since |
| SpanEpochs.RunLowFirst | src/scache.c:850-883 | before the first decay, and without madvise, it is 0 |
| SpanEpochs.PutTooHighIff | src/internal/bin.h:201-238 | a put leaves a counter above its bin's count if and only if merging takes more spans off the bin than it had above the counter |
| SpanEpochs.StepNotTooHigh | src/internal/bin.h:96-146 | no other operation does |
| SpanRecords.MintListed | src/scache.c:252-255 | with exactly the spans with a record listed, the push of a mint finds the head's record, and the list stays exact |
| SpanRecords.CoalesceListed | src/span.c:348-366 | joining two spans, of one mapping or of two, writes only to records that exist and keeps the list exact |
| SpanRecords.GetListed | src/scache.c:607-719 | a get keeps the list exact |
| SpanRecords.PutListed | src/scache.c:567-605 | a put keeps the list exact |
| SpanRecords.ListedPutSafe | src/scache.c:262-351 | both joins of a put find the records they write to |
| SpanRecords.GetAlignedListed | src/span.c:297-329 | an aligned get keeps the list exact, and every listed span its record, if and only if it cuts up no span with a record |
| SpanFrames.GetSpanFramed | src/scache.c:607-719 | allocated spans and other arenas' spans and pages are untouched, and only the result becomes allocated |
| SpanFrames.GetAlignedFramed | src/scache.c:722-848 | the same, even when a span is lost |
| SpanFrames.PutSpanFramed | src/scache.c:567-605 | freeing a span touches no other allocated one |
| SpanFrames.DecayFromFramed | src/scache.c:850-883 | decay touches nothing allocated |
| SpanRuns.InitHolds | src/scache.c:402-489 | a new cache has all invariants, whatever other arenas have in the trie |
| SpanRuns.StepCore | src/scache.c:567-883 | any operation keeps the core if and only if it is not an aligned get whose split fails |
| SpanRuns.StepNeat | src/scache.c:567-883 | any operation leaves no two free neighbours of one age, mappings merged or not, if and only if it is not a cut without slab metadata |
| SpanRuns.StepOrigins | src/scache.c:567-883 | any operation keeps the origins exact if and only if it cuts up no span with a record |
| SpanRuns.StepListed | src/scache.c:567-883 | in every arena: while the list is exact a step meets no missing record, and the list stays exact, and every listed span keeps its record, if and only if the step cuts up no span with one |
| SpanRuns.UnrecordedSafe | src/scache.c:252-255 | an arena that keeps no records has no list to write to |
| SpanRuns.RunListed | src/scache.c:567-883 | over every run that loses no span and cuts up none with a record, the list is exact in every state and no step meets a missing record |
| SpanRuns.KeepsIsSafe | src/scache.c:567-883 | so every such run is safe |
| SpanRuns.RunCore | src/scache.c:567-883 | the core holds in every state of every safe run without a failed split |
| SpanRuns.RunNeat | src/scache.c:567-883 | no two free neighbours of one age in any state of any safe and tidy run, mappings merged or not |
| SpanRuns.RunOrigins | src/scache.c:567-883 | the origins are exact in every state of every tidy run that keeps its records |
| SpanRuns.FramedIsForeign | src/scache.c:567-883 | what is framed for one arena is harmless to every other |
| SpanRuns.ForeignKeeps | src/scache.c:567-883 | harmless changes by other arenas keep every invariant |
| SpanRuns.ForeignPlan | src/span.c:467-482 | whatever other arenas do between the two lookups of a put and before the joins, the same neighbours are merged, and they are as they were looked up |
| SpanResults.Tiled | src/scache.c:262-399 | the spans of an arena tile its mapped pages, and every address of a span looks up to it, also while a span is in hand or lost |
| SpanResults.MappedAreRegions | src/scache.c:183-259 | the mapped pages are exactly those the mapper answered with |
| SpanResults.WholeAgain | src/scache.c:262-351 | once nothing of a mapping is allocated, it is one span with the mapping's address and size |
| SpanResults.UnmapsEachOnce | src/scache.c:513-564 | destroying the cache unmaps each mapping, whole, once, and nothing else |
| SpanResults.RunSafe | src/scache.c:402-883 | from creation, a run without a failed split is safe if the arena keeps no records or no span with one is cut up |
| SpanResults.RunTiled | src/scache.c:402-883 | tiling and lookup hold in every state of every safe run from creation without a failed split |
| SpanResults.RunWholeAgain | src/scache.c:402-883 | the mapping becomes whole again after every safe and tidy run from creation |
| SpanResults.RunUnmaps | src/scache.c:402-883 | each mapping is unmapped once after every tidy run from creation that keeps its records |
| SpanResults.NoRecords | src/scache.c:252-255 | an arena without unmap records has none to lose |
| SpanCalls.JoinTiles | src/span.c:348-366 | a join keeps every mapped page in exactly one record's range if and only if it does not move a record to a span without one; otherwise two ranges overlap |
| SpanCalls.PutTiles | src/scache.c:567-605 | the same for a put, whichever of its neighbours it merges |
| SpanCalls.StepTiles | src/scache.c:567-883 | the ranges stay right through a step if and only if it neither cuts up a span with a record nor moves a record to a span without one |
| SpanCalls.ApartMovesNone | src/internal/span.h:236-264 | with mappings kept apart no record ever moves so |
| SpanCalls.OverlapUnmaps | src/scache.c:513-564 | where two ranges overlap, destroying the cache unmaps a page twice |
| SpanCalls.RunUnmapsOnce | src/scache.c:402-883 | mappings merged or not: after every run from creation without such steps, destroying the cache unmaps every mapped page exactly once, and no other |
| SpanLedger.GetHandsFree | src/scache.c:607-719 | what is handed out was not allocated before |
| SpanLedger.StepLedger | src/scache.c:567-883 | conservation: the allocated set changes by what is handed out and taken back, and no other allocated span changes |
| SpanLedger.PutLedger | src/scache.c:567-605 | freeing a span takes it, and it alone, off the allocated set |
| SpanLedger.AllocatedApart | src/scache.c:607-848 | two allocated spans share no byte |
| SpanLedger.StepTrie | src/scache.c:567-883 | spans and trie agree after every step, also one that loses a span |
| SpanLedger.StepIsForeign | src/scache.c:567-883 | any step of one arena on the shared trie is one that every other arena tolerates |
| SpanFlags.GetMarks | src/scache.c:607-719 | what a get hands out is marked as a slab if and only if a slab was asked for |
| SpanFlags.GetAlignedMarks | src/scache.c:722-848 | what an aligned get hands out is not marked as a slab |
| SpanFlags.StepUnmarked | src/scache.c:580-584 | no operation leaves a span that is free, or lost, marked as a slab |
| SpanFlags.RunUnmarked | src/scache.c:402-883 | so in every state of every run |
| SpanSystem.MovedIntact | src/scache.c:567-883 | with any number of arenas on one trie, an arena stays intact through any move of any arena if and only if it does not itself lose a span |
| SpanSystem.RunIntact | src/scache.c:402-883 | in every state of every run of all the arenas, each one that has lost no span is intact, whatever the others lost |
| SpanSystem.RunArenasApart | src/scache.c:402-883 | live spans of two such arenas share no byte |
| SpanSystem.FreshFleet | src/scache.c:402-489 | arenas just created on an empty trie are such a system |
| SpanWitness.NinePagesForTen | src/scache.c:66-71 | a run of two gets from creation after which nine pages have been handed out for ten |
| SpanWitness.AlignedGetLoses | src/scache.c:806-811 | a run of a get and an aligned get from creation that loses a span |
| SpanWitness.FailedSlabSplits | src/scache.c:634-719 | one get from creation, without slab metadata, that leaves two free neighbours |
| SpanWitness.SecondAlignedGetUnsafe | src/span.c:325-329 | one aligned get from creation that takes a listed span's record; the next one like it meets the missing record |
| SpanWitness.MergeUnmapsTwice | src/span.c:348-366 | two gets and a put from creation, with mappings merged, after which destroying the cache unmaps a page twice |
| SlabSupply.SpansApart | src/internal/pail.h:52-81 | slabs on allocated spans lie apart |
| SlabSupply.SlabIsFresh | src/internal/pail.h:62-78 | the span got for a slab is apart from all the pail's slabs and holds its blocks, as the pail takes for granted |
| SlabSupply.StepKeepsSlabs | src/scache.c:567-883 | no operation of any arena moves or takes a slab's span, but the put of that span |
| SlabSupply.FlushSucceeds | src/internal/pail.h:165-186 | the span of any slab can be put back: the cache stays in order, exactly that span stops being allocated, and the other slabs stay where they are |
| SpanCache.Scache.SetBit | src/scache.c:20-44 | the word update is the bitmap function |
| SpanCache.Scache.FindNonemptyBin | src/scache.c:46-88 | the word scan finds the least nonempty bin from the request on, or -1, and says whether it is larger |
| SpanCache.Scache.PutInBin | src/scache.c:125-141 | bucket, counters, both bitmaps and flags change as specified |
| SpanCache.Scache.RemoveFromBin | src/scache.c:90-123 | the same for taking out a given span |
| SpanCache.Scache.FirstNonemptyBucket | src/internal/bin.h:74-84 | the first bucket in the order clean, dirty, retained |
| SpanCache.Scache.PopFromBin | src/scache.c:143-181 | the same for the first span of the first nonempty bucket |
| SpanCache.Scache.constructor | src/scache.c:402-489 | a new cache: all bins and bitmaps empty, no origins, nothing mapped |
| OriginLinks.PushedChained | src/internal/genlist.h:230-254 | the link writes of a push put the span in front of the list, all links in agreement |
| OriginLinks.ClosedChained | src/internal/genlist.h:182-212 | the link writes of a removal, which go by the span's own links, take it out of the list wherever it stands |
| SpanCache.Scache.PushOrigin | src/internal/genlist.h:230-254 | the push, through the records of the span and of the head, keeps head, tail and links the list with the span in front |
| SpanCache.Scache.RemoveOrigin | src/internal/genlist.h:182-212 | the removal, through the records of the span and of its neighbours, keeps head, tail and links the list without the span |
| SpanCache.Scache.PopOrigin | src/internal/genlist.h:314-327 | the pop gives the first span and keeps head, tail and links the rest of the list |
| SpanCache.Scache.MintSpan | src/scache.c:183-259 | mint in place, links included, is the mint function, on all its error paths |
| SpanCache.Scache.FindOrMint | src/scache.c:634-660 | bins, then mint |
| SpanCache.Scache.CutOut | src/scache.c:353-399 | cutout in place is the cutout function |
| SpanCache.Scache.Get | src/scache.c:607-719 | the whole get is the get function |
| SpanCache.Scache.MayMerge | src/internal/span.h:236-264 | the chain of tests is the merge condition |
| SpanCache.Scache.Neighbours | src/span.c:467-482 | both neighbours, through the trie, and whether they merge |
| SpanCache.Scache.MoveRecord | src/span.c:348-366 | record and place in the list move to the left span, by a push and a removal on the links |
| SpanCache.Scache.CoalescePair | src/span.c:338-382 | record, links, age, class, state and size move as specified |
| SpanCache.Scache.MergeNeighbours | src/scache.c:262-351 | merging in place is the merge function |
| SpanCache.Scache.Put | src/scache.c:567-605 | the whole put is the put function |
| SpanCache.Scache.SplitInPlace | src/span.c:200-336 | the writes to the descriptors are the aligned split |
| SpanCache.Scache.GetAlign | src/scache.c:722-848 | the whole aligned get is its function, failing split included |
| SpanCache.Scache.DecayOne | src/internal/bin.h:249-312 | the loop of one bin is the decay function |
| SpanCache.Scache.DecayAll | src/scache.c:850-883 | the loop over the bins is the decay function |
| SpanCache.Scache.Destroy | src/scache.c:513-564 | popping the list until its head is null makes exactly the calls that the records of the origins give, in order |
| SpanLinks.EnterPages | src/scache.c:339-346 | an insert on the radix tree is the span cache's insert on its map, and cannot fail where nodes exist |
| SpanLinks.FindSpan | src/span.c:467-482 | a lookup on the radix tree is the span cache's lookup |
| SpanLinks.FirstNode | src/bucket.c:9-24 | a node no other precedes in the heap belongs to the one first span of the bucket |
| SpanLinks.PopFirst | src/internal/bin.h:96-146 | popping the heap gives exactly the span the cache takes from the bucket |
| SpanLinks.InsertNode | src/internal/bin.h:158-191 | inserting in the heap adds the span to the bucket |
| SpanLinks.RemoveNode | src/internal/bin.h:201-238 | removing from the heap takes the span out of the bucket |
| Slab.Slab.constructor | src/slab.c:12-62 | exactly the first n bits are set, last word included |
| Slab.Slab.FirstBit | src/slab.c:95-101 | the scan stops inside the bitmap at the least free block |
| Slab.Slab.GetBlock | src/slab.c:73-107 | fails exactly when the counter is zero, else takes the least free block and gives its address |
| Slab.Slab.PutBlock | src/slab.c:109-131 | the block's number is found from its address, and exactly its bit is set |
| Slab.SetUndoesClear | src/slab.c:129 | putting back what was taken restores the bitmap |
| Slab.BlocksDisjointIff | src/internal/slab.h:28-34 | blocks are disjoint if and only if their size fits 16 bits |
| Slab.AddressesDifferIff | src/slab.c:106-125 | the addresses handed out tell a slab's blocks apart if and only if the stride is not zero; then the put finds the number, otherwise all blocks share one address |
| Slab.OneAddressAt65536 | src/config/_tsalloc_config.h:408 | all blocks of the class of 65536 bytes are handed out at one address |
| Slab.OverlapAt81920 | src/config/_tsalloc_config.h:409 | blocks of 81920 bytes of the shipped profile overlap |
| Slab.CounterExact | src/slab.c:52-57 | the counter is the number of free blocks if the block count fits 16 bits |
| Slab.NewSlabServes | src/slab.c:73-107 | a new slab hands out n mod 65536 of its n blocks, so all of them if and only if n is below 65536 |
| Slab.FirstGet | src/internal/pail.h:123-132 | the first get from a new slab gives no block if and only if n is a multiple of 65536, and the slab then leaves the registry although all its blocks are free |
| Slab.BlockInside | src/slab.c:106 | blocks of a size below 65536 stay inside the slab |
| Pail.Pail.MintSlab | src/internal/pail.h:52-81 | a new slab, all free, is counted and comes first in the registry; a failure changes nothing |
| Pail.Pail.TakeBlock | src/internal/pail.h:120-132 | the first block of the first slab, at the address its 16-bit stride gives; a slab without free blocks leaves the registry |
| Pail.Pail.GetBlock | src/internal/pail.h:95-133 | one block that was not outstanding becomes so, and nothing else; fails only for lack of a slab |
| Pail.Pail.PutBlock | src/internal/pail.h:150-193 | the block is free again, and the slab is flushed exactly when asked, all free and not the only one |
| Pail.PutStays | src/internal/pail.h:187-190 | without a flush: registry and count stay exact, and outstanding loses the block |
| Pail.PutFlushes | src/internal/pail.h:165-186 | with a flush: the slab was linked, and without it registry, count and outstanding blocks are exact |
| Pail.Pail.GiveBack | src/internal/pail.h:310-323 | the rollback loop frees exactly the blocks taken so far and loses no slab |
| Pail.EnoughServes | src/internal/pail.h:284-333 | a batch does not fail if as many blocks are free, or if every slab asked for is had |
| Pail.Pail.GetBatch | src/internal/pail.h:284-333 | fails if and only if some block is reached with the free blocks used up and no slab to be had; then the outstanding blocks are as before and the slabs minted stay, all free; else the batch is new and distinct |
| Pail.Accounting | src/internal/pail.h:95-193 | outstanding plus free blocks is slabs times blocks per slab |
| Pail.BlocksApart | src/internal/pail.h:95-133 | two different blocks of a pail share no byte, for sizes below 65536 |
| Pail.BlocksApartIff | src/internal/slab.h:28-34 | all blocks of a pail lie apart if and only if their size is below 65536 |
| PailLinks.GetFirst | src/internal/pail.h:123-128 | the bitmap gives the block the pail takes, and the counter is zero exactly when it was the last |
| PailLinks.PutBack | src/internal/pail.h:160-165 | the bitmap takes a block back, and the counter is the pail's count |
| PailLinks.Push | src/internal/pail.h:77 | a push on the links is a push on the registry |
| PailLinks.PopSlab | src/internal/pail.h:125-128 | a pop of the links takes the registry's first slab |
| PailLinks.RemoveSlab | src/internal/pail.h:168 | unlinking a slab is its removal from the registry, wherever it stands |
| ObjectPool.ChunkHoldsIff | src/objpool.c:114-140 | the chunk holds its objects if and only if the rounding does not wrap |
| ObjectPool.InitAcceptsIff | src/objpool.c:81-152 | a pool is refused exactly if the alignment is no power of two or a chunk does not fit 64 bits |
| ObjectPool.InitSizes | src/objpool.c:81-152 | an object gets at least the bytes asked for and less than one alignment more |
| ObjectPool.InitSound | src/objpool.c:81-152 | short of wrapping, sizes and offsets are sound for carving |
| ObjectPool.ObjectsApart | src/objpool.c:212-218 | two carved objects never overlap, in one chunk or in two |
| ObjectPool.ObjectsPlaced | src/objpool.c:212-218 | every object is aligned, past the header and inside its chunk |
| ObjectPool.ObjPool.NewChunk | src/objpool.c:192-210 | a chunk with room for an object comes on top of the stack, or nothing changes |
| ObjectPool.ObjPool.Carve | src/objpool.c:212-220 | the carved object is a new one, at the top of what was left |
| ObjectPool.ObjPool.Alloc | src/objpool.c:175-223 | the free list's first, else a never carved one; a chunk is asked for, and only then can it fail, exactly when the list is empty and the top chunk has no room; what is live grows by exactly it |
| ObjectPool.ObjPool.Free | src/internal/objpool.h:91-103 | the object moves from live to the front of the free list; null is ignored |
| ObjectPool.ObjPool.Deinit | src/objpool.c:154-173 | the walk gives back every chunk once |

## Left out

- SpanRuns.RunCore: is about runs in which no aligned split fails, as `SpanRuns.StepCore` says in both directions, and in which no step writes to a missing record; after a loss the bins do not stay right (`SpanRoom.LostSpoilsCounts`), and what the arena does from then on is not modelled.
- SpanStates.RunRetains: is about the same runs.
- SpanEpochs.RunLow: is about the same runs.
- TrieReaders.WriterWaitFree: the writer has the trie's lock; waiting for that is in Mutex.
- SpanSystem.RunIntact: an arena that has lost a span makes no further moves in it.
- SpanOps.MintIs: names a state also where the push would meet a missing record; `SpanCache.Scache.MintSpan` looks that record up and so requires it.
- SpanCache.Scache.Put: requires that the joins find the records they write to, which `SpanRecords.ListedPutSafe` shows of every state with an exact list.
- SpanRuns.RunNeat: is about runs without a cut that then lacks slab metadata (`SpanRuns.StepNeat` says that this is exact). Where mappings are merged, free neighbours of different ages can remain, since what a cut leaves of a new mapping is binned without a merge test.
- SpanRuns.RunOrigins: is about arenas that do not merge across mappings; for those that do, `SpanRuns.RunListed` says which spans have records, and `SpanCalls` what they name.
- SpanCalls.RunUnmapsOnce: goes one way over runs, since a record that has moved to the wrong span can be put right by a later join; `SpanCalls.StepTiles` is exact for every step.
- SpanSizes.SlabFitsGot: needs a page of at least eight units, as `SlabGeometry.FitsIff` explains.
- SpanCache.Scache.PushOrigin: the links are a map from spans to pairs of spans, which stand for the pointers in the records.
- Slab.NewSlabServes: calls get until it fails, which the source does not do in one place; it is there to say what a slab gives.
- SpanCache.Scache.PutInBin: the cache's buckets are sets; the links of the heap are in PairingHeap, and SpanLinks shows that each heap operation is the set operation, but one object holding both is not built.
- SpanCache.Scache.MintSpan: the descriptor pool, the mapper, the trie's node pool and the slab metadata pool are answers in a parameter; ObjectPool models such a pool by itself.
- SpanCache.Scache.Find: the trie of the cache is a map; SpanLinks shows that each operation of the radix tree is the map operation.
- Pail.Pail.GetBlock: the pail's slabs are values and its registry a sequence; PailLinks shows that bitmaps and links do the same. The span cache below a pail is an answer in a parameter; `SlabSupply.SlabIsFresh` shows that its answers are as assumed.
- Pail.Pail.constructor: is about block sizes that are no multiple of 65536, and fewer than 65536 blocks to a slab; with a stride of zero the first put divides by zero.
- Pail.Pail.PutBlock: takes the span cache's put for one that succeeds, as `SlabSupply.FlushSucceeds` shows it does while `madvise` does; if `madvise` fails there the code has already given up the slab's metadata.
- Slab.Slab.PutBlock: freeing a block that is already free is a caller's error.
- ObjectPool.InitSound: the wrap-around when a single object size within one alignment of 2^64 is rounded is not modelled.
- Mutex.RunInv: weak memory orders are not modelled, nor a thread that locks twice; lock creation and removal are left out.
- TrieReaders.RunInv: a load and the test on it by the locked writer are one step, since no other thread writes.
- 64-bit bitmap words are sets of the numbers of their one-bits; trailing-zero counts are least elements.
- The script's floating-point logarithm is taken to be exact.
- A default span class equal to the number of classes (one past the table) is not a valid configuration here.
- Two arenas' operations are steps on the shared trie, one after the other; the trie's own lock and its lock-free readers are in Mutex, PageTrie and TrieReaders.
- Allocator creation, thread-local caches and columns, the forwarding layers, error contexts and traces: set-up and pass-through.
- pagetrie_remove, the generated heap's isempty, push_back and pop_back, and the singly linked list: not used by what is modelled.
- Failures of madvise and of unmapping.
- System calls, bit-field packing, and the script's argument parsing and file rewriting.
