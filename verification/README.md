# Verified model of dlmalloc-rs

This project models the allocator of `src/dlmalloc.rs` with the interface of `src/lib.rs`, and proves that it is
correct: every operation keeps one invariant over the raw words of the heap, blocks never overlap and are never
written to by anyone but their holder, free chunks are found by best fit, and a client sees a plain store of byte
sequences over any run of calls. It also models the parts of `src/dlmalloc.c` that the port left out or rewrote: the
tree search with its wrapping subtractions, `ialloc`, bulk freeing, directly mapped chunks and the heap walk.

## How the model is built

* **Memory.** `Mem` is a map from addresses to integers. Its domain is the memory the allocator holds: its own struct
  and the regions the system supplied. Each byte address has its own cell, and a machine word lives in the cell of its
  first byte. A read needs its address in the domain, so every word the code reads is memory it holds. A write outside
  would add to the domain, and the contracts exclude that: the domain is part of the invariant. The one write outside
  held memory that the model shows is the one of finding 2.
* **Words.** A `usize` has 64 bits. Sums of addresses and sizes that the code relies on are written with `Plus`, which
  asks that they be machine words, or are bounded by the invariant: every segment ends strictly below 2^64, and the
  footprint is at most 2^64 - 4096 (`FootprintBound`), also with the region that has just been supplied
  (`RegionCounts`). Where a sum may wrap this is written out: `Minus` in the tree search, the sums of `validate_size`,
  and the rounding in `sys_trim`, which gives the same amount when it wraps (`TrimWraps`).
* **The allocator.** `Allocator.Dlmalloc` is a class with the fields of the Rust struct. Its methods follow the Rust
  functions branch by branch; a function with a long body is split into helper methods, one for each part.
* **The ghost state.** Five ghost fields name what the words mean: `cs` (the chunks that tile every segment, with
  kind, size and the previous-in-use flag), `ix` (the free-chunk index: 32 small rings and 32 tries whose nodes are
  rings of chunks of one size), `segs` (the segment list), `denials` (how often the system refused), and `traffic`
  (every call to the system allocator with its answer, in order). `LiveOf(cs)` is the map of blocks in use with the
  size each was last asked for.
* **The invariant.** `Valid()` says that heads, feet and flags agree with `cs` and the links with `ix`; that every
  free chunk is top, the designated victim, or in exactly the bin its size belongs to; that segments, fenceposts and
  records are in place and apart; that the held memory is exactly the segments; and that `footprint` is their sum, which
  is what the system has outstanding by its log, and `maxFootprint` the most it ever had.
* **The system.** Getting memory from the system, giving it back and trimming it are nondeterministic methods: they
  may refuse at any time, and each appends its arguments and its answer to `traffic`. What a new region contains is
  arbitrary. Three constants describe the system: `paged`, whether regions come in multiples of 512 bytes; `releases`,
  whether it ever takes parts back; and `capacity`, the most it has outstanding. They matter to the release pass only,
  and any combination is allowed.

Modules follow the code: words and bit tricks (`Words`, `Bits`, `SizeClasses`, `Limits`), the index (`Rings` to
`Lookup`), chunk tags and the invariant (`Tiling`, `HeapState`, `HeapOps`), segments (`Segments`, `NewSegments`,
`Prepending`, `Footprint`, `Releasing`), the calls to the system (`Traffic`, `Accounts`), operations on blocks
(`Freeing`, `Resizing`, `Frames`, `Policy`), the allocator object (`Allocator`), the interface of src/lib.rs
(`Interface`), its consistency checks (`Checks`, `HeapWalk`), code of `src/dlmalloc.c` only (`BulkCalls`,
`WrappingSearch`, `Mapped`), and results over whole states and runs (`Canonical`, `BulkFreeing`, `Independent`,
`SmallGranularity`, `Clients`).

## Model

| member | source | states |
|---|---|---|
| Clients.Run | src/lib.rs:156-279 | Any sequence of allocate, zeroed allocate, resize, free, write and trim calls with layouts refines a store of byte sequences: every block has its alignment and reads back byte for byte what the store says, a resize keeps the common prefix, a refusal changes nothing, and the blocks that others held before the run are the same, untouched. A call is refused only for its size or because the system refused, and the refusals of the second kind are exactly as many as those of the system. The run is covered if the system takes nothing back, or segments are made of whole regions of 512 bytes, or the countdown is longer than the run and the system never supplies more than 2 MiB. |
| Clients.ServesNext | src/lib.rs:171-258 | One step of that refinement: if everything but the blocks given up is untouched and the new block is backed, the whole store is still backed and the new block is not one that was held. |
| Allocator.Dlmalloc.constructor | src/dlmalloc.rs:114-139 | A new allocator meets the invariant with no segment, no block and no call to the system. |
| Allocator.Dlmalloc.Malloc | src/dlmalloc.rs:323-437 | Null comes only from a request of at least `max_request` or a refusal of the system, and then the state is the old one. Otherwise exactly one block is new, 16-aligned, with room for the request and less than a minimum chunk to spare, and no other block or byte of one has changed. It comes from where the algorithm of src/dlmalloc.c:4541-4558 says: a small request from a chunk without remainder, else the victim, else the smallest binned chunk that fits with the remainder kept as victim; a large one from the smallest binned chunk that fits if that is smaller than the victim, else the victim; then top; and the system exactly when none of these serves. Of several small chunks of one size it is the one binned last, and the victim afterwards is stated for each case. |
| Policy.NearIsRemainderless | src/dlmalloc.rs:327-343 | The test of two small bins succeeds exactly if some binned chunk has the padded size, and picks the bin of that size. |
| Policy.NextIsSmallest | src/dlmalloc.rs:349-357 | The next marked small bin holds the smallest binned chunks that fit. |
| Policy.TreeIsSmallest | src/dlmalloc.rs:373-388 | When no small chunk fits, the best fit of the tree bins is the smallest of all binned chunks that fit. |
| Policy.VictimIsTighter | src/dlmalloc.rs:1006-1009 | When `tmalloc_large` returns null, no binned chunk fits or none that fits is smaller than the victim, which fits. |
| Policy.MarkedSmall | src/dlmalloc.rs:1142-1152 | A small bin is marked exactly if there is a binned chunk of its size. |
| Policy.OddBinsEmpty | src/dlmalloc.rs:334-337 | With words of 8 bytes every second small bin is empty, so the second of the two bins never serves. |
| Allocator.Dlmalloc.SysAlloc | src/dlmalloc.rs:440-517 | The system is asked once, for the least multiple of the granularity that holds the padded request and 96 bytes more, and null comes only from its refusal. A region that was supplied always serves the request, and where it lies says how: the first is the first segment; one that starts where the head segment ends makes that longer, and the block is at the old top; one that ends where a segment starts becomes the front of that segment, with the block at its start; any other is a new head segment with the block at its start. Footprint, trim threshold, victim and, for the first region, the countdown are stated too. |
| Allocator.Dlmalloc.AddSegment | src/dlmalloc.rs:844-904 | A region apart from all segments becomes the head segment and top; the old head keeps its record and fenceposts in its own tail, the rest of the old top is a binned free chunk, and no block changes. |
| Allocator.Dlmalloc.PrependAlloc | src/dlmalloc.rs:801-841 | The block is cut from the front of the new region and the invariant holds again: the rest is free memory merged with what was free behind it. No other block changes. |
| Allocator.Dlmalloc.InsertLargeChunk | src/dlmalloc.rs:1099-1140 | The trie stays well formed and holds exactly the one more chunk; only link words of free chunks and of the struct are written. |
| Allocator.Dlmalloc.UnlinkLargeChunk | src/dlmalloc.rs:1189-1250 | The same for taking out any tree chunk: ring member, ring head, leaf, or inner node replaced by a leaf below it. Exactly that chunk is gone and the trie is well formed. |
| Allocator.Dlmalloc.InsertSmallChunk | src/dlmalloc.rs:1081-1097 | The ring of the chunk's bin and its bit in the map hold exactly the one more chunk. |
| Allocator.Dlmalloc.UnlinkSmallChunk | src/dlmalloc.rs:1174-1187 | Exactly the chunk leaves its ring, and the bit is cleared exactly when the bin becomes empty. |
| Allocator.Dlmalloc.UnlinkFirstSmallChunk | src/dlmalloc.rs:1049-1060 | The chunk taken off a marked bin is in the index and has exactly the size of that bin. |
| Allocator.Dlmalloc.BestLarge | src/dlmalloc.rs:951-1004 | The two loops find a least chunk that holds the request over all tree bins, or null exactly when none does, and it is the one the functional search `Chosen` picks. |
| Allocator.Dlmalloc.BestSmall | src/dlmalloc.rs:917-934 | The leftmost path of the lowest marked bin holds a least chunk of all tree bins. |
| Allocator.Dlmalloc.TmallocLarge | src/dlmalloc.rs:951-1023 | The block is cut from a best-fitting tree chunk that is smaller than any victim that would do; null means that no tree chunk fits or that the victim is at least as tight as all of them. |
| Allocator.Dlmalloc.TmallocSmall | src/dlmalloc.rs:917-949 | It always succeeds, on a best-fitting tree chunk, and what it leaves of that chunk is the new victim unless it is too small for a chunk. |
| Allocator.Dlmalloc.ReplaceDv | src/dlmalloc.rs:1062-1071 | The chunk in hand becomes the victim and the old victim is in its small bin. |
| Allocator.Dlmalloc.Coalesce | src/dlmalloc.rs:1267-1332 | The block is merged with both free neighbours, whether these are binned, the victim or top, so that no two free chunks touch; only this block has gone. Where the result goes and which chunk is the victim afterwards depend on the chunk before and the chunk behind alone. |
| Allocator.Dlmalloc.DisposeChunk | src/dlmalloc.rs:721-779 | Exactly the block is gone, the invariant holds with nothing left in hand, and the victim has grown exactly if it lay next to the block and top did not. |
| Allocator.Dlmalloc.Free | src/dlmalloc.rs:1267-1345 | Exactly the block is gone, and no byte of any other block has changed even if memory goes back to the system on the way. What else happens is determined: a block that joins top causes a trim if top is then larger than the threshold; a large chunk of its own lowers the countdown by one, or runs the release pass if that was 1; otherwise segments, counters and the system are left alone. On a system that takes memory back this is for heaps whose later segments have at least 336 bytes, and for every call that does not reach the pass or the trim. |
| Accounts.NoPeriodicPass | src/dlmalloc.rs:148-160 | With rate 0, in a run of fewer than 2^64 - 1 frees the system is called only when a block has joined top and top has become larger than the threshold: the periodic pass does not run. |
| Allocator.Dlmalloc.ReleaseUnusedSegments | src/dlmalloc.rs:1407-1451 | For every heap on which the pass takes out tree chunks only (`PassSafe`): the system is asked about every segment but the head, and offered exactly those it agrees to release that hold no block and whose record did not displace top; exactly those it takes are gone from the list. The result is the drop in footprint, the countdown is the larger of the number of segments looked at and the rate (2^64 - 1 for rate 0), and the victim is dropped exactly if its segment was offered. |
| Traffic.LeftIs | src/dlmalloc.rs:1413-1448 | Of the segments a pass has looked at, exactly those that were offered and taken are not left, and only vacated ones were offered. |
| Traffic.WillingSystem | src/dlmalloc.rs:1406-1448 | When the system agrees to everything, exactly the vacated segments are gone. |
| Releasing.ReleasableIsVacated | src/dlmalloc.rs:1418-1425 | The test of the pass is met exactly by a segment that holds no block and whose record did not displace top. |
| Allocator.Dlmalloc.SysTrim | src/dlmalloc.rs:1351-1393 | Under the same condition: if top has more than `pad` and the reserve and the system agrees, it is offered a multiple of the granularity that leaves more than that and at most one unit more, and takes it or declines; then the release pass runs. The threshold becomes the largest word exactly if nothing was released and top exceeds it. True exactly if the footprint has shrunk; no block changes. |
| Accounts.WillingTrim | src/lib.rs:260-272 | On a system that agrees to everything, a trim leaves top with more than the pad and the reserve and at most one unit more, and exactly the segments that are not vacated. |
| Allocator.Dlmalloc.TryReallocChunk | src/dlmalloc.rs:539-611 | It succeeds exactly if the block is large enough, alone or with the top, victim or binned chunk right behind it. Then the block has its new size in place with its contents kept up to the smaller size, no other block has changed, and the victim is what the block leaves of it or gives back next to it; otherwise nothing has changed. |
| Allocator.Dlmalloc.Realloc | src/dlmalloc.rs:519-537 | Null leaves the state as it was; otherwise the block holds the request with all of the old contents that fit, and no other block has changed. It stays in place exactly if there is room for it there, and moves to a place that was free if not. In place the system is not called. |
| Allocator.Dlmalloc.Memalign | src/dlmalloc.rs:656-717 | Like `malloc`, with the payload at a multiple of the alignment and at most a minimum chunk to spare, after leader and tail have been given back. The system is asked exactly as `malloc` of the oversized request would. |
| Allocator.Dlmalloc.Destroy | src/dlmalloc.rs:1749-1763 | Every segment is offered to the system exactly once, in order, with its base and size; every record is read while it is still held. What is held afterwards are exactly the words that lie in no segment that was taken, and the result is the sum of what was taken. |
| Traffic.PeakIsHighest | src/dlmalloc.rs:453-454 | `maxFootprint`, which the invariant ties to the log of all calls to the system, is the most that was outstanding at any time: it was reached and never exceeded. |
| Allocator.Dlmalloc.SetGranularity | src/dlmalloc.rs:179-185 | Accepts exactly the powers of two from 16 up and changes nothing otherwise; the invariant holds in both cases. |
| Allocator.Dlmalloc.SetMaxReleaseCheckRate | src/dlmalloc.rs:157-160 | The countdown is the new rate, and 2^64 - 1 for rate 0. |
| Allocator.Dlmalloc.SegmentHolding | src/dlmalloc.rs:906-915 | Walking the records in memory finds the first segment that holds the address, or null if none does; the end of a segment is a machine word. |
| Allocator.Dlmalloc.HasSegmentLink | src/dlmalloc.rs:1395-1404 | True exactly if some record lies in the segment. |
| Allocator.Dlmalloc.ValidateSize | src/dlmalloc.rs:1252-1265 | For the size last asked for, both assertions hold, whatever has happened to the block since; for any size whose sums do not wrap they hold exactly if the block is as large as the size and its overhead and not larger than the greatest overhead allows. |
| Allocator.Dlmalloc.CallocMustClear | src/dlmalloc.rs:319-321 | It is true for every block. |
| Interface.CMemalign | src/lib.rs:348-354 | Both paths give a block at a multiple of the alignment; null changes nothing and comes from size or refusal only. |
| Interface.Calloc | src/lib.rs:178-184 | The same, and all `size` bytes are zero. |
| Interface.FreeSized | src/lib.rs:204-208 | With the size last asked for the check passes and exactly the block is gone, with the same effect on segments, counters and the system as `Free`. |
| Interface.ReallocSized | src/lib.rs:238-258 | The first `min(old_size, new_size)` bytes are kept, the alignment too if it exceeds 16, and null changes nothing. |
| Interface.Write | src/lib.rs:160-173 | The pointer is valid for its size: any byte of the payload can be written at any time, which keeps the invariant and all other blocks. |
| Allocator.Dlmalloc.BinFind | src/dlmalloc.rs:1695-1739 | The search finds a chunk exactly if it is in the index. |
| HeapWalk.TraverseAndCheck | src/dlmalloc.c:3418-3446 | The walk ends, none of its checks fails at any chunk, those of single chunks included, and what it counts and the fenceposts add up to the footprint. |
| HeapWalk.CheckMallocState | src/dlmalloc.rs:1557-1583 | After any calls, the consistency check of the whole state finds nothing wrong: all bins, the victim, top, and every chunk of every segment by the walk of src/dlmalloc.c:3418-3446. |
| Checks.CheckTree | src/dlmalloc.rs:1624-1688 | The recursive check of a tree ends and passes: every ring member has the bin, size and flags of its node and mutual links, one of them a parent, and the children hang from the node with smaller and larger sizes. |
| Checks.CheckSmallBin | src/dlmalloc.rs:1585-1608 | The walk of a small bin ends at the header and passes at every chunk and at the block behind each. |
| Checks.CheckTopChunk | src/dlmalloc.rs:1465-1485 | The segment that holds top is found and top fills it up to the reserve. |
| Checks.InuseHolds | src/dlmalloc.rs:1502-1510 | Every block and every record passes the check of a chunk in use, the one of a directly mapped chunk being out of reach. |
| Checks.FreeHolds | src/dlmalloc.rs:1532-1555 | Every free chunk passes the check of a free chunk: foot, flags, used neighbours, and mutual links if it is in a bin. |
| Checks.MallocedHolds | src/dlmalloc.rs:1487-1500 | A new block passes the check `malloc` makes of it: its size is that of the padded request with less than a minimum chunk to spare. |
| WrappingSearch.ChooseWrapping | src/dlmalloc.c:4429-4478 | The search with wrapping subtractions takes the chunk that the port's checked search takes, or none when that takes none. |
| BulkCalls.Ialloc | src/dlmalloc.c:4966-5083 | `n` separate blocks lie back to back, each with room for its own request, zeroed if asked; entry `j` of the array points to element `j`; no other block changes; null changes nothing. The system is asked at most once, for all of it. |
| BulkCalls.FreeEntries | src/dlmalloc.c:5095-5126 | Exactly the blocks named by the array are gone, whatever neighbours were merged beforehand, and every entry is null. |
| BulkCalls.BulkFree | src/dlmalloc.c:5092-5132 | The same, and at the end a trim exactly if top is larger than the threshold. |
| SmallGranularity.FailingRun | src/dlmalloc.rs:1418-1433 | For every legal granularity below 512: the run `malloc(0)`, `free`, `malloc(r)`, with regions of the size `sys_alloc` asks for, the second because nothing in hand serves `r`, ends in a valid heap with a releasable segment whose chunk is in a small bin and not in a tree. Below 256 the words the pass would take for its parent and bin are 48 and 50. |
| Words.LayoutConstants | src/dlmalloc.rs:201-290 | The constants of the model are the values of the layout formulas for 8-byte words. |
| Words.RequestFits | src/dlmalloc.rs:303-309 | The padded size is a multiple of 16, covers request and overhead, and wastes less than a minimum chunk. |
| Words.HeadRoundTrip | src/dlmalloc.rs:1766-1838 | Size and both flags come back from a packed head, and setting or clearing the previous-in-use flag touches only that flag. |
| Bits.LeastBitIndex | src/dlmalloc.rs:100-102 | Isolating the least bit and counting trailing zeros gives the index of the least set bit. |
| Bits.LeftBitsOf | src/dlmalloc.rs:96-98 | Masking with `left_bits` keeps exactly the set bits above the given one. |
| Bits.NearBinIsMarked | src/dlmalloc.rs:330-337 | The test for the two nearest bins is exact, and the bumped index names the bin asked for if that is marked and else the next one. |
| Bits.NextBinIsLeast | src/dlmalloc.rs:352-355 | Shifting back and masking finds the least marked small bin above the bin asked for. |
| Bits.BinAboveIsLeast | src/dlmalloc.rs:988-991 | The same for the tree bins, and the mask is zero exactly if there is none. |
| SizeClasses.TreeIndexInterval | src/dlmalloc.rs:1037-1047 | A size lies between the least size of its bin and that of the next one. |
| SizeClasses.TreeIndexSpec | src/dlmalloc.rs:1690-1693 | `compute_tree_index` and `min_size_for_tree_index` are adjoint: a bin is the index of a size exactly if the size lies in its interval. |
| SizeClasses.MinSizeIncreases | src/dlmalloc.rs:1690-1693 | The intervals of the bins follow each other without overlap. |
| SizeClasses.ShiftedAtRoot | src/dlmalloc.rs:104-111 | `leftshift_for_tree_index` brings the first bit that tells sizes of the bin apart to the top, for each of the 32 bins. |
| SizeClasses.TopBitPicksKid | src/dlmalloc.rs:1116-1120 | The top bit picks the child whose interval holds the size, and shifting it out prepares the same for the level below. |
| SmallBins.InsertSmall | src/dlmalloc.rs:1081-1097 | Linking a chunk in at the end of a ring and marking its bit makes the index hold exactly one more chunk. |
| SmallBins.RemoveSmall | src/dlmalloc.rs:1174-1187 | Unlinking a chunk, or clearing the bit of a bin with one chunk without touching its ring, drops exactly that chunk. |
| TrieRemoval.RemoveMember | src/dlmalloc.rs:1192-1221 | Unlinking a ring member that is not the node keeps the index with exactly that chunk dropped. |
| TrieRemoval.RemoveHead | src/dlmalloc.rs:1192-1249 | When the node has other members the next one takes over its slot, parent and children. |
| TrieRemoval.RemoveLeaf | src/dlmalloc.rs:1223-1235 | Clearing the slot of a node without children, and the bin's bit at a root, drops exactly that node. |
| TrieRemoval.RemoveInner | src/dlmalloc.rs:1198-1249 | A lone inner node is replaced by a leaf below it: the leaf's ring owns the larger interval, and exactly the one chunk is dropped. |
| BestFit.LowerBinsAreSmaller | src/dlmalloc.rs:986-994 | Bins below the request's own hold only chunks that are too small, bins above only larger ones. |
| BestFit.LaterBinsAreLarger | src/dlmalloc.rs:986-1004 | The best chunk of the first bin with a fitting chunk is the best of all. |
| Search.WrappedIsCloser | src/dlmalloc.c:4441-4442 | As long as the remainder so far is at most the negated request, the wrapping comparison holds exactly when the checked one does. |
| Search.WrappedIsTaken | src/dlmalloc.c:4478-4478 | A victim smaller than the request makes the wrapped difference so large that the chosen chunk is always taken. |
| Limits.BelowMaxRequest | src/dlmalloc.rs:240-256 | Every request below `max_request` can be padded and rounded up to any legal granularity within a machine word. |
| Limits.MaxRequestTight | src/dlmalloc.rs:240-256 | Which requests can be padded and rounded up within a machine word: exactly those below `max_request`, and at granularity 16 exactly 16 more. |
| Limits.GuardWraps | src/dlmalloc.rs:660-660 | `max_request - alignment` wraps for one pair of a legal granularity and an alignment only. |
| Limits.AlignableIsExact | src/dlmalloc.rs:660-665 | `memalign` either refuses a request or passes on a machine word exactly if the request is `Alignable`; for any other the padded request wraps to less than the size asked for. |
| Limits.WrappedGuard | src/dlmalloc.rs:660-665 | Where the guard wraps and the padded request does not, `malloc` refuses that request. |
| Tiling.RetileTags | src/dlmalloc.rs:1809-1838 | Replacing a run of chunks by one or two, with the heads, feet and flags the code writes, keeps all boundary tags in order. |
| HeapState.RetileGood | src/dlmalloc.rs:1809-1838 | The same keeps the whole invariant, and no block outside the run changes. |
| Frames.PayloadIsFree | src/dlmalloc.rs:1848-1858 | Writing any bytes of a payload, up to the head of the chunk behind it, keeps the invariant and every other block. |
| NewSegments.FirstGood | src/dlmalloc.rs:456-466 | The first region makes a heap that meets the invariant with no block. |
| NewSegments.AddGood | src/dlmalloc.rs:844-904 | The words `add_segment` writes keep the invariant with the old top in hand. |
| Segments.MoveEndGood | src/dlmalloc.rs:480-483 | Moving the end of the head segment, forward or back, keeps the invariant and every block. |
| Footprint.FootprintBound | src/dlmalloc.rs:453-454 | The segments of a valid heap add up to at most 2^64 - 4096, since they lie apart above the struct and end below 2^64. |
| Footprint.RegionCounts | src/dlmalloc.rs:453-454 | So do they with a region the system has just supplied: the sum for the footprint does not wrap. |
| Prepending.FrontGood | src/dlmalloc.rs:490-494 | A region in front of a segment becomes one block of that segment and nothing else changes. |
| Prepending.CutFront | src/dlmalloc.rs:801-835 | Cutting that block, with the rest joined to a free chunk behind it, keeps the invariant. |
| Resizing.AlignedRoom | src/dlmalloc.rs:663-686 | The oversized request always leaves an aligned position whose leader is larger than a minimum chunk and behind which the padded request fits. |
| Resizing.SlackOfLive | src/dlmalloc.rs:1252-1265 | The size of every block exceeds its request by what `validate_size` accepts. |
| HeapOps.LiveNotMmapped | src/dlmalloc.rs:1805-1807 | No block of a valid heap has the head of a directly mapped chunk. |
| Releasing.ReleasableIsVacant | src/dlmalloc.rs:1418-1426 | A first chunk that passes the test of the release pass fills its segment up to the record. |
| Releasing.DisplacedStays | src/dlmalloc.rs:856-860 | A segment whose record had to displace top is never given back, however empty it is. |
| Releasing.DropGood | src/dlmalloc.rs:1434-1439 | Unlinking the record of such a segment keeps the invariant without its memory, and every block. |
| Releasing.ReleasableIsLarge | src/dlmalloc.rs:1418-1433 | The chunk that fills a releasable segment is a tree chunk exactly if the segment has at least 336 bytes. |
| Releasing.ReleasableLocated | src/dlmalloc.rs:1426-1433 | The chunk of a releasable segment is the victim or in a tree, as the pass takes it to be, exactly if it is the victim or the segment has at least 336 bytes. |
| Releasing.WholeIsSafe | src/dlmalloc.rs:1407-1451 | If segments are made of whole regions of 512 bytes, the pass takes out tree chunks only. |
| Releasing.MisreadAsNode | src/dlmalloc.rs:1189-1228 | For a chunk of 48 bytes that fills its segment, the word read as parent is the own foot of the chunk, 48, and the word read as number of the bin is 50, the head of the record behind it. |
| Releasing.SafeGranularity | src/dlmalloc.rs:1351-1393 | A first region or one left by a trim can be too small for a large chunk exactly if the granularity is below 512; `FailingRun` and `WholeIsSafe` say what that means for heaps. |
| Releasing.TrimmedRegion | src/dlmalloc.rs:1356-1357 | One `trim(0)` of a region of 65536 bytes leaves such a segment exactly for the granularities below 512. |
| Releasing.TrimBounds | src/dlmalloc.rs:1357-1357 | What `sys_trim` asks for leaves top with more than `pad` and at most one unit more. |
| Releasing.TrimWraps | src/dlmalloc.rs:1356-1357 | With word arithmetic the amount is the same for every legal granularity: if the sum wraps, so does the difference. |
| Releasing.AllGone | src/dlmalloc.rs:1749-1763 | If the system takes everything, `destroy` returns the sum of all segments. |
| Canonical.SegmentTiled | src/dlmalloc.rs:1781-1783 | Stepping from chunk to chunk covers every segment without gap, from its base to its end. |
| Canonical.CanonicalTiling | src/dlmalloc.rs:1267-1345 | Segments and blocks determine the heap: two valid heaps that agree on these have the same chunks, flags, top and top size, whatever calls led there. |
| Canonical.WalkCounts | src/dlmalloc.c:3418-3446 | What a walk counts in a segment, with its fenceposts or with top and the reserve, is the size of the segment. |
| BulkFreeing.FreedSoFar | src/dlmalloc.c:5092-5132 | Over any chain of frees, the blocks left are those not yet freed. |
| BulkFreeing.OrderDoesNotMatter | src/dlmalloc.c:5085-5091 | Freeing the same blocks in any two orders ends with the same chunks and the same top. |
| BulkFreeing.BulkFreeIsCanonical | src/dlmalloc.c:5085-5132 | Bulk freeing, with its merging of neighbours in advance, ends with the chunks that freeing the blocks one by one in any order ends with. |
| Independent.SameOffset | src/dlmalloc.c:5001-5004 | For elements of one size the multiplication gives the offset that adding up the sizes gives. |
| Independent.CutNext | src/dlmalloc.c:5048-5058 | Each cut makes the next element a block of its padded size and leaves one block of the rest; all others stay. |
| Independent.MakesIndependents | src/dlmalloc.c:5047-5063 | When the last cut is made, the elements, the array and the old blocks are all the blocks there are. |
| Mapped.MapSizeFits | src/dlmalloc.c:3822-3828 | The test `mmsize > nb` holds exactly if the sum before rounding has not wrapped. |
| Mapped.ChunkInMapping | src/dlmalloc.c:3869-3874 | The chunk that `mmap_resize` sets up lies inside its mapping with a good head exactly if the offset and the foot pad are less than the new length. |
| Mapped.ShrinkingLosesChunk | src/dlmalloc.c:3853-3885 | A valid mapping, with a chunk aligned as `internal_memalign` does, and a successful remap after which the chunk is not inside its mapping. |
| Mapped.DirectMaps.MmapAlloc | src/dlmalloc.c:3821-3850 | Nothing is asked of the system exactly if the limit forbids it or the length has wrapped; otherwise one mapping is, and if it is supplied there is a new mapping with a chunk for the request and its overhead, apart from all others and counted in the footprint and its maximum; or nothing has changed. |
| Mapped.DirectMaps.MmapResize | src/dlmalloc.c:3853-3885 | Nothing is asked of the system for a small size or if the chunk is kept; otherwise one move is, and nothing has changed, or the mapping has the new length with its contents moved along, and all mappings stay valid if the offset and the foot pad are less than the new length. |
| Mapped.DirectMaps.AlignMapped | src/dlmalloc.c:4916-4928 | Moving the chunk inside its mapping keeps room for the request, writes two words, and keeps every mapping. |
| Mapped.DirectMaps.FreeMapped | src/dlmalloc.c:4700-4707 | The bounds computed from head and offset are those of the mapping. The system is asked once to take exactly it, and it goes exactly if the system does. |

## Findings

Where the code does not do what it says for all inputs, the code is modelled as it is and the exact condition is
proved.

1. **Small granularities and the release pass.** `release_unused_segments` takes the only chunk of a segment out with
   `unlink_large_chunk` without asking whether it is large (src/dlmalloc.rs:1426-1433). `set_granularity` documents
   granularities below a page as intended (src/dlmalloc.rs:170-175) and the example in src/lib.rs:140-147 sets 256 with
   the periodic pass disabled.
   * The pass does what it should on a heap exactly if the chunk of every releasable segment is the victim or large
     (`PassSafe`), which for a segment means at least 336 bytes (`ReleasableLocated`, `ReleasableIsLarge`). A segment can
     be smaller exactly if the granularity is below 512 (`SafeGranularity`, and `TrimmedRegion` for a region of 65536
     bytes); for each of these `FailingRun` is a run of three calls that gets there, and `MisreadAsNode` says which words
     are then taken for a parent and a bin.
   * `ReleaseUnusedSegments`, `SysTrim` and `Trim` ask for `PassSafe` and nothing about the granularity. `Free` asks for
     later segments of at least 336 bytes, or that neither the pass nor the trim is reached, which the countdown and the
     size of top tell. `Realloc` asks for one of these only if it has to move the block. All this concerns systems that
     take memory back: the one for WebAssembly does not (src/wasm.rs:113-115).
   * Over runs the pass stays safe with multiples of 512 bytes from the system and a granularity of at least 512
     (`WholeIsSafe`), and out of reach as long as the countdown lasts if the system never supplies more than 2 MiB, the
     default trim threshold. The second covers the documented configuration on a small heap. `Malloc`, `SysAlloc`,
     `Memalign` and `Calloc` ask for none of this.
2. **Shrinking a mapped chunk.** `mmap_resize` does not compare the offset of the chunk in its mapping with the new
   length (src/dlmalloc.c:3863-3874, and src/dlmalloc.rs:625-642 after it). The chunk stays inside exactly if the
   offset and the foot pad are less than the new length (`ChunkInMapping`, `MmapResize`); `ShrinkingLosesChunk` gives
   a chunk for which they are not. In the port no chunk is directly mapped (`LiveNotMmapped`), so it is not affected.
3. **The guard of `memalign`.** `max_request - alignment` wraps exactly if granularity and alignment are both 2^63
   (`GuardWraps`). Calls with a layout are refused all the same (`WrappedGuard`). Other sizes are handled exactly if
   they are `Alignable` (`AlignableIsExact`): the failing ones are those above 2^63 - 40 and below 2^64 - 103.
4. **`max_request`** is the least request that does not fit, except for granularity 16, where the least one is
   `max_request` + 16 (`MaxRequestTight`).
5. **Code that is never reached.** The second of the two small bins that `malloc` looks at first is always empty with
   8-byte words (`OddBinsEmpty`). `sys_alloc` never returns null after the system has supplied a region, `sys_trim`
   never finds a record in the head segment, and the branches for directly mapped chunks in `free`, `dispose_chunk`,
   `realloc`, `memalign`, `validate_size` and `calloc_must_clear` are dead.

## Left out

- Free: on a system that takes memory back, asks for later segments of at least 336 bytes or that the pass is not reached; `FreeSized`, `CFree` and `BulkFree` do the same. Finding 1 shows why.
- Realloc: asks for that only when the block has to move and the memory for it may come from the system; `CRealloc` and `ReallocSized` do the same. For a move that succeeds it does not repeat what `Malloc` and `Free` state about the calls to the system.
- ReleaseUnusedSegments: asks for `PassSafe` on a system that takes memory back, as do `SysTrim` and `Trim`; on other heaps the pass misreads a chunk (finding 1).
- Run: asks for whole regions of 512 bytes, or for a small heap and a countdown longer than the run, on a system that takes memory back; trim calls ask for the first.
- SafeGranularity: is about sizes of regions; the statements about heaps and runs are `ReleasableLocated`, `WholeIsSafe` and `FailingRun`.
- Memalign: asks for `Alignable`, which shuts out exactly the calls of finding 3; `CMemalign`, `Calloc` and `ReallocSized` do the same.
- UnlinkLargeChunk: does not say which of the leaves below takes the place of an inner node, nor `InsertLargeChunk` where in the ring of its size the chunk goes; any choice keeps the trie well formed and the search exact.
- MmapResize: says nothing about the room in the resized chunk beyond the length of its mapping, because the offset can use it up.
- Ialloc: asks that the padded sizes and the array add up to a machine word; the C code does not detect a wrap-around there.
- Destroy: says what happens to memory and what is returned; the allocator is consumed and not used again.
- Frames.PayloadIsFree: the cells of a payload are integers, so a byte is not limited to 256 values and a word is not made of eight bytes.
- Words are 64 bits wide; the 32-bit layout, where every chunk of a small bin is split, is not modelled.
- `least_addr` is kept for checks only and is not part of the model; the checks against it are left out of `Checks`, and so is `check_mmapped_chunk`, which no chunk reaches.
- CheckTree: looks at the slot of the bin before the two child words of a parent; the code looks at them first, and for a root reads words behind the bin.
- Mapped.DirectMaps.MmapAlloc: counts the footprint of mappings as an unbounded integer.
- Segment and system flags are zero, as all system allocators of the repository supply them; external segments do not arise.
- The system allocators (`src/unix.rs`, `src/wasm.rs`, `src/windows.rs`, `src/xous.rs`, `src/dummy.rs`) and the locking in `src/global.rs`.
- Footers, mspaces, `mallopt`, statistics and inspection of `src/dlmalloc.c`.
- `independent_calloc`, `independent_comalloc` and `bulk_free` of `src/dlmalloc.c`, which only call `ialloc` and `internal_bulk_free`.
- Rust's aliasing rules and pointer provenance; pointers are addresses.
- Which address the system picks, beyond that a region is 16-aligned, above the struct, ends strictly below 2^64, and was not held before.
