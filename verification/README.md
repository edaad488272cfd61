# Proofs about kernel_core

`kernel_core` is the policy half of a small AArch64 microkernel. This project models its hardest parts in
Dafny and proves what they promise, for all inputs, all runs and all interleavings.

- **Log ring** (`Logger`, `LoggerInvariant`, `LoggerTheorems`, `LoggerThreads`). A step machine over the atomic
  operations of any number of writers and flushers. An invariant with a rely-guarantee argument gives exclusive
  chunks, in-order untorn delivery and whole records. The loops of `write_str` and `flush_internal` are methods
  that run while other threads take steps between any two of their own.
- **Page tables** (`PageEntry`, `PageTree`, `PageWalker`, `PageObstacles`, `PageOverwrites`, `PageOwnership`,
  `PageRange`, `PageTables`, `PageTheorems`, `PageOutcomes`, `PageMixed`). Bit-packed descriptors in the VMSAv8-64
  format (section D8.3 of the Arm Architecture Reference Manual, DDI 0487), the tree of tables in memory, the
  recursive range walker as coded, and the refinement of a plain address map. `PageWalker.PlanTable` says which
  entries the coded walker visits; `PageRange.Fits` is the exact arithmetic condition under which these are the
  entries of the range. `PageTables.Follows` is the one outcome and the state a request can lead to, given the tables
  and the allocator at its start.
- **Allocators** (`BuddyBlocks`, `BuddyTiles`, `Buddy`, `BuddyRuns`; `HeapLayout`, `HeapState`, `Heap`,
  `HeapRuns`; `SubtractRanges`). The buddy allocator with splitting, coalescing and region tiling; the heap with
  its headers in the memory it manages; and the interval subtraction that feeds them. Runs say how each request is
  answered.
- **Handles** (`HandleBits`, `HandleTree`, `HandleProtocol`, `HandleInvariant`, `HandleTheorems`, `HandleWalk`,
  `HandleMap`, `HandleDrop`). The bit set and the radix tree together as a concurrent protocol, one atomic access
  at a time, and sequentially as a refinement of a finite map.
- **Device tree** (`DeviceTree`, `DeviceTreeReader`, `DeviceTreeLookup`, `DeviceTreeQueries`,
  `DeviceTreeFlatten`). A flattener after section 5.4 of the Devicetree Specification, the token reader that undoes
  it, and path queries on the bytes against lookup in the tree.
- **Scheduler** (`Scheduler`). Round robin with an exact bound on waiting.

`Common`, `Arithmetic` and `Bits` hold what these share. Panics, including arithmetic that leaves its type, and
error returns are outcomes of the model, not preconditions. Where the code differs from its documentation or
intention the model follows the code, and the difference is stated as an if-and-only-if with a condition on the
arguments or the state before the call, and with an input that shows it:

- The range walker divides a range by an index of the next level, and `pages_per_entry` of the 16KiB root is too
  small, so exactly the ranges that satisfy `PageRange.Fits` are walked block by block (`PageRange.FitsExactly`);
  others panic or are mapped elsewhere (`PageOutcomes.MapCrossing`, `PageOutcomes.MapLongRange`).
- `map` reports `AlreadyMapped` for a region that is mapped with another block size only where the mapped block is
  larger; over smaller ones it succeeds and cuts their table off, so that dropping the tables does not free it
  (`PageMixed.MapMixed`, `PageMixed.MapPageThenBlock`).
- `unmap` reports `NotMapped` only where a table is missing (`PageOutcomes.UnmapPages`,
  `PageOutcomes.UnmapUnmapped`).
- `free` of the buddy allocator pushes the freed block, not the lower one, when it merges
  (`Buddy.Allocator.FreeSound`, `BuddyRuns.UpperFreedLast`; as intended, `BuddyRuns.FreeIntended`), and
  `add_memory_region` does not subtract the padding (`Buddy.RegionInside`, `BuddyRuns.RegionOverrun`).
- The heap reserves eight bytes too few for one residue class of large alignments (`HeapLayout.PaddingFits`,
  `HeapRuns.SmallThenAligned`), and misses one kind of double release (`HeapRuns.ReleaseTwice`).
- Handles of `256^depth` or more alias smaller ones (`HandleMap.Map.Get`, `HandleMap.Map.Remove`,
  `HandleMap.AliasedHandle`).
- A log ticket dropped for overflow stops the reader for good (`LoggerTheorems.ReaderNeverPassesDropped`,
  `LoggerTheorems.OverflowHappens`); an idle log is flushed completely if and only if there is none
  (`LoggerThreads.SharedLogger.Flush`).

`dafny verify dfyconfig.toml` checks the whole project.

## Model

| member | source | states |
|---|---|---|
| `LoggerInvariant.StepInv` | kernel_core/src/logger.rs:203-356 | Every atomic step of every thread keeps: each chunk that is not empty belongs to one ticket of the window, every writer holds its own chunk, the flusher reads only a full chunk, and the sink has the finished tickets in order |
| `LoggerTheorems.OneTicketPerChunk` | kernel_core/src/logger.rs:94-137 | In every reachable state a chunk is being written or full if and only if some ticket i with i % N equal to the chunk has its data there; that ticket is the only one, and read_index <= i < read_index + N |
| `LoggerTheorems.ChunksAreExclusive` | kernel_core/src/logger.rs:94-137 | No two threads write into one chunk, and the flusher never reads a chunk that is being written |
| `LoggerTheorems.ClaimNeverFails` | kernel_core/src/logger.rs:281-306 | After a passed distance check the chunk is empty, so its compare-exchange succeeds and the error branch is unreachable |
| `LoggerTheorems.NoThreadPanics` | kernel_core/src/logger.rs:203-350 | No slice bound fails: the very step the code of a thread takes next is possible in every reachable state, with the length it copies; between two strings, every next string and the end of the record |
| `LoggerTheorems.ReachableBacked` | kernel_core/src/logger.rs:281-306 | In every reachable state a ticket that is taken or being written belongs to a thread at work on this very ticket |
| `LoggerTheorems.IdleTickets` | kernel_core/src/logger.rs:281-356 | When no thread is at work, every ticket has been published or dropped |
| `LoggerTheorems.SinkIsInTicketOrder` | kernel_core/src/logger.rs:203-234 | The chunks handed to the sink are exactly the finished contents of tickets 0, 1, 2, ... up to read_index, in order, each once and untorn |
| `LoggerTheorems.PublishedDataIsKept` | kernel_core/src/logger.rs:49-58 | A finished ticket has been delivered, or its chunk is still full with its bytes and its size |
| `LoggerTheorems.RecordsAreWhole` | kernel_core/src/logger.rs:319-356 | A record written without overflow is the concatenation of its chunks, all non-empty, in increasing ticket order and all but the last of exactly 120 bytes; once delivered, the sink holds its bytes |
| `LoggerTheorems.ReaderNeverPassesDropped` | kernel_core/src/logger.rs:281-293 | As coded, once a ticket was dropped no later run moves read_index or the sink past it |
| `LoggerTheorems.OverflowHappens` | kernel_core/src/logger.rs:281-293 | A run with one chunk in which a ticket is dropped |
| `LoggerThreads.SharedLogger.AcquireNewChunk` | kernel_core/src/logger.rs:281-306 | Under any interference: the writer ends with a fresh chunk at offset 0, or with the rest of its string discarded |
| `LoggerThreads.SharedLogger.NextChunk` | kernel_core/src/logger.rs:322-333 | Finishing a full chunk and acquiring the next one keeps the rest of the string, or gives it up |
| `LoggerThreads.SharedLogger.CopyIntoChunk` | kernel_core/src/logger.rs:335-346 | Each copy shortens the rest of the string |
| `LoggerThreads.SharedLogger.WriteStr` | kernel_core/src/logger.rs:319-350 | Under any interference the loop ends with nothing left to copy, having taken the whole string into account |
| `LoggerThreads.SharedLogger.Accept` | kernel_core/src/logger.rs:116-130 | The bytes of a full chunk are handed over while the lock is held and read_index stands still |
| `LoggerThreads.SharedLogger.Deliver` | kernel_core/src/logger.rs:116-137 | A full chunk is accepted, emptied, and read_index moves by exactly one |
| `LoggerThreads.SharedLogger.FlushOne` | kernel_core/src/logger.rs:210-233 | One iteration delivers exactly one ticket or ends the flush and releases the lock; without interference it ends early only at an unpublished ticket |
| `LoggerThreads.SharedLogger.FlushInternal` | kernel_core/src/logger.rs:203-234 | At most the limit of tickets is delivered, read_index moves by exactly that many, and the lock is released |
| `LoggerThreads.SharedLogger.Flush` | kernel_core/src/logger.rs:203-234 | When no thread is at work, a flush delivers exactly the tickets before the first dropped one; read_index reaches write_index if and only if no ticket was ever dropped |
| `PageEntry.PageRoundTrip` | kernel_core/src/memory/page_table.rs:248-265 | A page entry decodes to its address modulo 2^48, hence to its address exactly when that has 48 bits |
| `PageEntry.BlockRoundTrip` | kernel_core/src/memory/page_table.rs:241-265 | The same for block entries at levels 0 to 2 |
| `PageEntry.TableRoundTrip` | kernel_core/src/memory/page_table.rs:234-265 | A table entry decodes to the table it was made for, modulo 2^48 |
| `PageEntry.PropertiesRoundTrip` | kernel_core/src/memory/page_table.rs:102-120 | The properties of a leaf for a 48-bit address are read back field by field as they were encoded |
| `PageEntry.WordDecodes` | kernel_core/src/memory/page_table.rs:111-120 | Any entry with the attribute bits of some properties decodes to those properties |
| `PageTree.EntrySplits` | kernel_core/src/memory/page_table.rs:270-287 | The indices of an address at the levels are the digits of its block number: table number times entries plus index |
| `PageTree.WalkElsewhere` | kernel_core/src/memory/page_table.rs:622-659 | Writing one entry of one table changes the lookup of no address outside that entry |
| `PageTree.WriteKeepsTree` | kernel_core/src/memory/page_table.rs:254-265 | Writing an entry that is valid at its level keeps the tree of tables |
| `PageWalker.LeafWrite` | kernel_core/src/memory/page_table.rs:570-581 | One callback of map or unmap gives the addresses of its entry the new translation and attributes and leaves all others alone |
| `PageWalker.PlanTableBounds` | kernel_core/src/memory/page_table.rs:364-416 | The walker visits only entries below the table it was given, and as many as asked unless it panics |
| `PageWalker.AddTableLookup` | kernel_core/src/memory/page_table.rs:332-343 | Hanging a zeroed table into an empty entry changes no lookup |
| `PageTables.EmptyTables` | kernel_core/src/memory/page_table.rs:440-443 | Fails exactly when the allocator has no page; otherwise an empty tree that maps nothing and owns its root page |
| `PageTables.FromExisting` | kernel_core/src/memory/page_table.rs:455-471 | Panics exactly if the root is null or not aligned to a page; otherwise existing valid tables are taken over with their tag |
| `PageTables.Tables.NextTable` | kernel_core/src/memory/page_table.rs:326-349 | Which of the outcomes occurs: the child table that is there; AlreadyMapped exactly at a block or page; at an empty entry NotMapped if none is to be made, Allocator exactly if the next answer of the allocator is no page, and otherwise exactly this page hung in, zeroed. Errors change no table; exactly the answers asked for are used up; lookups stay the same |
| `PageTables.Tables.LeafStep` | kernel_core/src/memory/page_table.rs:401-414 | At the end level exactly the planned entries are written, or nothing and a panic if they run over the table; exactly the tables whose entries are written over are cut off |
| `PageTables.Tables.Step` | kernel_core/src/memory/page_table.rs:364-416 | The walk writes exactly the first blocks of its plan: all of them on success, a prefix on an error, those before it at a panic. The first walk that is stopped decides the outcome: AlreadyMapped exactly if a leaf is on its path, else NotMapped exactly if unmap lacks a table, else Allocator exactly if map needs more tables than there are pages; a panic exactly if the plan panics and none is stopped; else success. Exactly the missing tables are made, each with one answer of the allocator, and one more answer is used up by an Allocator error; exactly the tables below written entries are cut off |
| `PageTables.Tables.StepEntries` | kernel_core/src/memory/page_table.rs:373-400 | The loop over the entries of a table composes the outcomes, the effects, the new tables and the tables cut off of the parts it hands down |
| `PageTables.Tables.ForEachEntry` | kernel_core/src/memory/page_table.rs:484-538 | Unsuitable requests are refused in the order of the checks without any change; all others end with the one outcome, the tables, the rest of the allocator and the tables cut off that the start demands |
| `PageTables.Tables.Map` | kernel_core/src/memory/page_table.rs:552-583 | The exact outcome for every request, as for Step, how many blocks were processed, what is left of the allocator and which tables were cut off. For a range that fits: success gives every address of the range physical_start + offset with the given properties and changes no other; an error has done so for the blocks before the one it names |
| `PageTables.Tables.Unmap` | kernel_core/src/memory/page_table.rs:592-617 | The exact outcome for every request, with the allocator as it was and exactly the tables cut off whose entries were cleared. For a range that fits: success leaves nothing mapped inside and changes nothing outside; an error has done so for the blocks before the one it names |
| `PageTables.Tables.PhysicalAddressOf` | kernel_core/src/memory/page_table.rs:622-659 | The loop computes the translation; neither the decode panic nor the unknown offset mask is reached |
| `PageTables.Tables.DropTable` | kernel_core/src/memory/page_table.rs:702-712 | The recursion frees the tables below and then the table, in this order |
| `PageTables.Tables.Drop` | kernel_core/src/memory/page_table.rs:726-730 | Dropping frees only pages taken from the allocator, none twice, and all of them if and only if no table was cut off |
| `PageTables.LowBits` | kernel_core/src/memory/page_table.rs:270-287 | Indices and offsets depend on the low 48 bits of a pointer only |
| `PageObstacles.TableAtPlace` | kernel_core/src/memory/page_table.rs:364-416 | A table found by its number is the table recorded at that place |
| `PageObstacles.AddTableAt` | kernel_core/src/memory/page_table.rs:332-343 | A new table is found at its number, and every other table where it was |
| `PageObstacles.ReachedMade` | kernel_core/src/memory/page_table.rs:326-349 | A table that a walk reaches was there at the start or was made, and no leaf was in the way |
| `PageObstacles.MadeReached` | kernel_core/src/memory/page_table.rs:326-349 | Conversely, a table that was there or was made is reached unless a leaf is in the way |
| `PageObstacles.LeafJudged` | kernel_core/src/memory/page_table.rs:401-414 | A walk that reached its end-level table was stopped by nothing, whatever was written before |
| `PageObstacles.StopJudged` | kernel_core/src/memory/page_table.rs:326-349 | A walk that meets no table entry ends with the error that the tables of the start demand |
| `PageObstacles.NextJudged` | kernel_core/src/memory/page_table.rs:378-399 | The outcome of a walk after others is that of the whole sequence of walks |
| `PageObstacles.OneVerdict` | kernel_core/src/memory/page_table.rs:364-416 | The outcome, the block an error names and the number of answers of the allocator used up are determined by the tables and the pages of the start |
| `PageObstacles.FewTables` | kernel_core/src/memory/page_table.rs:326-349 | A request needs at most one new table for each block and level |
| `PageObstacles.MadeSo` | kernel_core/src/memory/page_table.rs:326-349 | Which tables are made: all that are missing, or after an error those of the walks before and, if the pages ran out, as many of the next as there were pages; the allocator is left without one answer for each and one for its failure |
| `PageOverwrites.WriteEntry` | kernel_core/src/memory/page_table.rs:570-581 | Writing an entry of a table changes the entry with its number and no other of the level |
| `PageOverwrites.OverwroteLeaf` | kernel_core/src/memory/page_table.rs:570-581 | One callback cuts off the table that its entry pointed to at the start of the walk, if any, and no other |
| `PageOverwrites.LeavesAdd` | kernel_core/src/memory/page_table.rs:332-343 | Hanging in a table leaves all entries of the end level as they were or adds empty ones |
| `PageOverwrites.PagesOverwriteNothing` | kernel_core/src/memory/page_table.rs:570-581 | Page entries never replace a table entry |
| `PageOwnership.LinksLeaf` | kernel_core/src/memory/page_table.rs:570-581 | A leaf written over a table entry makes exactly that table an orphan |
| `PageOwnership.DropFreesOnce` | kernel_core/src/memory/page_table.rs:702-712 | On every tree of tables: the freed pages are distinct tables of the tree, and all of them if and only if there is no orphan |
| `PageRange.FitsExactly` | kernel_core/src/memory/page_table.rs:378-399 | As coded, the walker visits exactly the blocks of a range, in order and without a panic, if and only if the range satisfies Fits, an arithmetic condition on its first block and its length |
| `PageRange.RangeEffect` | kernel_core/src/memory/page_table.rs:552-617 | Visiting the blocks of a range in order gives each address in it physical_start + offset and the requested attributes, and leaves all other addresses alone |
| `PageRange.DesiredProperties` | kernel_core/src/memory/page_table.rs:102-120 | The attributes a mapped address has decode to the properties given to map |
| `PageTheorems.Serve` | kernel_core/src/memory/page_table.rs:552-617 | One more request gets the outcome its state demands, leaves the allocator and the tables cut off that the outcome determines, and extends the address map by its processed blocks |
| `PageTheorems.Run` | kernel_core/src/memory/page_table.rs:440-617 | Every run of map and unmap from empty refines a plain address map in which the last request covering a pointer decides; every result and every next state is the one that the state before demands: the tables made, the answers of the allocator used up, the tables cut off; each state means the requests before it. No table is cut off at the end if and only if no request wrote over the entry of a table, as in all runs of single pages |
| `PageTheorems.CrossingPanics` | kernel_core/src/memory/page_table.rs:388-400 | As coded, the plan for the two 4KiB pages on both sides of a 1GiB boundary panics after one page |
| `PageTheorems.CrossingDoesNotFit` | kernel_core/src/memory/page_table.rs:388-400 | That request passes all argument checks and does not satisfy Fits |
| `PageTheorems.LongRangeStrays` | kernel_core/src/memory/page_table.rs:299-306 | As coded, of 4097 small blocks of 16KiB pages from address 0 on, the last is mapped at address 2^47 + 2^37 |
| `PageOutcomes.UnmapOk` | kernel_core/src/memory/page_table.rs:592-617 | As coded, a walk of unmap from block to block succeeds if and only if the end-level table of each block exists |
| `PageOutcomes.UnmappedPage` | kernel_core/src/memory/page_table.rs:622-659 | Where its table exists, a page is unmapped if and only if its entry is empty |
| `PageOutcomes.UnmapPages` | kernel_core/src/memory/page_table.rs:591-617 | The documentation promises NotMapped for a range with unmapped pages. As coded, unmap of pages succeeds if and only if all their tables exist, and it succeeds although a page is unmapped if and only if moreover one of the entries is empty |
| `PageOutcomes.UnmapUnmapped` | kernel_core/src/memory/page_table.rs:591-617 | A run that shows it: after page 0 was mapped, page 1 has no translation and unmap of it succeeds |
| `PageOutcomes.MapEmpty` | kernel_core/src/memory/page_table.rs:552-583 | On empty tables with enough pages, map panics if its plan does and succeeds otherwise |
| `PageOutcomes.MapCrossing` | kernel_core/src/memory/page_table.rs:388-400 | So mapping the two pages on both sides of a 1GiB boundary does panic |
| `PageOutcomes.MapLongRange` | kernel_core/src/memory/page_table.rs:299-306 | And mapping the 4097 small blocks succeeds, leaves the last address unmapped and maps 2^47 + 2^37 instead |
| `PageMixed.LeafMapped` | kernel_core/src/memory/page_table.rs:622-659 | An address has a leaf at some level if and only if it has a translation |
| `PageMixed.OtherSizeIs` | kernel_core/src/memory/page_table.rs:550-550 | Part of a block is mapped with another block size if and only if the block lies below a larger one or its entry is a table with something mapped in it |
| `PageMixed.MapOk` | kernel_core/src/memory/page_table.rs:552-583 | As coded, a walk of map from block to block succeeds if and only if no larger block is in the way and the pages suffice for the missing tables |
| `PageMixed.MapMixed` | kernel_core/src/memory/page_table.rs:550-583 | The documentation promises AlreadyMapped for a region of which a part is mapped with a different block size. As coded, map reports it only for such regions, but succeeds on such a region, and cuts tables off, if and only if no larger block is in the way, the pages suffice and some entry of the region is a table with something mapped in it |
| `PageMixed.MapPageThenBlock` | kernel_core/src/memory/page_table.rs:550-583 | A run that shows it: after page 0, the small block at 0 is mapped with success, and dropping the tables does not free all pages |
| `BuddyBlocks.XorPow2` | kernel_core/src/memory/buddy.rs:265-272 | Flipping one bit of an offset adds or subtracts the size, for every offset |
| `BuddyBlocks.BuddyIsNeighbour` | kernel_core/src/memory/buddy.rs:265-272 | The buddy of an aligned block is the adjacent block with which it makes an aligned block of the next order; the buddy of the buddy is the block |
| `BuddyBlocks.SplitSound` | kernel_core/src/memory/buddy.rs:248-263 | Replacing a block by its halves keeps all blocks aligned, disjoint and together the same memory |
| `BuddyBlocks.MergeSound` | kernel_core/src/memory/buddy.rs:323-327 | So does replacing two halves by their block, if it starts at the lower one |
| `BuddyBlocks.NotFreeTwice` | kernel_core/src/memory/buddy.rs:329-333 | While a block is live, neither it nor its buddy heads a free block of the next order |
| `BuddyTiles.TileSum` | kernel_core/src/memory/buddy.rs:85-107 | The blocks of a region make up exactly floor(length / page) pages |
| `BuddyTiles.TileChained` | kernel_core/src/memory/buddy.rs:85-107 | They follow each other without gap from the aligned start on |
| `BuddyTiles.TileFalling` | kernel_core/src/memory/buddy.rs:85-107 | Their orders fall, and only the largest order there is can occur more than once |
| `BuddyTiles.TileAligned` | kernel_core/src/memory/buddy.rs:85-107 | All of them are naturally aligned if and only if the largest one is |
| `Buddy.OrderFor` | kernel_core/src/memory/buddy.rs:283-286 | The order is the least whose blocks hold the pages |
| `Buddy.Allocator.constructor` | kernel_core/src/memory/buddy.rs:47-58 | A new allocator has no memory |
| `Buddy.Allocator.PushFree` | kernel_core/src/memory/buddy.rs:142-162 | The block becomes the head of its list; the alignment assertion is the only way to fail |
| `Buddy.Allocator.PopFree` | kernel_core/src/memory/buddy.rs:112-134 | The head of the list becomes the caller's block, or the list is empty and nothing changes |
| `Buddy.Allocator.SplitBlockToSize` | kernel_core/src/memory/buddy.rs:248-263 | The lower part of the wanted order stays with the caller and the upper halves become free, one of each order between |
| `Buddy.Allocator.Allocate` | kernel_core/src/memory/buddy.rs:280-300 | Success hands out the first block of the first list that has one, split down to the order; it fails with OutOfMemory exactly when no list of that order or above has a block, changing nothing; free pages fall by exactly 2^order |
| `Buddy.Allocator.TryRemoveBuddy` | kernel_core/src/memory/buddy.rs:164-217 | The block is taken out of the list exactly when it is in it |
| `Buddy.Allocator.BlockInFreeList` | kernel_core/src/memory/buddy.rs:219-228 | Whether the block is in the list |
| `Buddy.Allocator.Free` | kernel_core/src/memory/buddy.rs:302-341 | For all arguments: exactly when they are refused with which error, panic or are accepted, and the lists afterwards. An accepted call keeps all blocks aligned, disjoint and complete if and only if the block is live and no free buddy lies below it. Freeing a live block is never refused and adds exactly 2^order pages; the largest order panics |
| `Buddy.Allocator.FreeLive` | kernel_core/src/memory/buddy.rs:329-333 | None of the double-free checks applies to a live block |
| `Buddy.Allocator.FreeSound` | kernel_core/src/memory/buddy.rs:323-338 | As coded, freeing keeps the invariant if and only if there is no free buddy below the block |
| `Buddy.Allocator.FreeMisplaces` | kernel_core/src/memory/buddy.rs:323-327 | As coded, with a free buddy below, the block pushed is not aligned to its size; the bytes of the buddy are in no block any more, and the pushed block ends in bytes that belong to another block or to none of the memory |
| `Buddy.Allocator.FreeForeign` | kernel_core/src/memory/buddy.rs:316-338 | Accepting a block that is not live breaks the invariant, so a double free past the checks is always damage |
| `Buddy.Allocator.AddMemoryRegion` | kernel_core/src/memory/buddy.rs:76-109 | Which regions panic and which are refused; otherwise exactly floor(length / page) pages are added from the aligned start, and the invariant holds afterwards if and only if the largest block is aligned and the blocks lie in managed memory that was not added before |
| `Buddy.Allocator.PushTiles` | kernel_core/src/memory/buddy.rs:88-107 | The loop pushes exactly the blocks of the tiling, in order |
| `Buddy.RegionInside` | kernel_core/src/memory/buddy.rs:82-92 | As coded, all blocks made of a region lie inside it if and only if there are none or the padding is at most length mod page |
| `BuddyRuns.FreeIntended` | kernel_core/src/memory/buddy.rs:323-338 | With the merged block pushed at the lower address, freeing any live block below the largest order succeeds and keeps the invariant |
| `BuddyRuns.IntendedSound` | kernel_core/src/memory/buddy.rs:323-338 | The lists after such a free are aligned, disjoint and complete, with exactly 2^order more pages |
| `BuddyRuns.Serve` | kernel_core/src/memory/buddy.rs:280-341 | One request of a client, with the exact answer, lists and holdings afterwards |
| `BuddyRuns.Run` | kernel_core/src/memory/buddy.rs:280-341 | Over every sequence of requests: the answer to each is the one the lists demand, what the client holds is the fold of the answers, everything stays aligned and disjoint, and free and held pages add up. As intended, every return of a held block below the largest order succeeds. As coded, the return of a block with a free buddy below it returns Ok and damages the lists (Buddy.Allocator.FreeMisplaces), so this client keeps such blocks and returns exactly the others, each with success |
| `BuddyRuns.UpperFreedLast` | kernel_core/src/memory/buddy.rs:323-327 | As coded, after both pages of a pair were allocated and freed, the lower first, the only free block is out of place |
| `BuddyRuns.RegionOverrun` | kernel_core/src/memory/buddy.rs:82-92 | As coded, a region that starts one byte after a page boundary gets a block that ends outside it |
| `HeapLayout.Round` | kernel_core/src/memory/heap.rs:147-149 | The next multiple of eight |
| `HeapLayout.PaddingAligns` | kernel_core/src/memory/heap.rs:201-204 | The padding puts the data on its alignment and the header on a word |
| `HeapLayout.PaddingFits` | kernel_core/src/memory/heap.rs:151-160 | As coded, the padding fits the reserved maximum if and only if align <= 16 or block mod align is not align - 8 |
| `HeapState.PushInv` | kernel_core/src/memory/heap.rs:114-129 | Writing a free header into unused bytes and linking it keeps all blocks intact and apart |
| `HeapState.UnlinkInv` | kernel_core/src/memory/heap.rs:60-112 | Taking a block off the list leaves its bytes unused and everything else intact |
| `HeapState.LiveInv` | kernel_core/src/memory/heap.rs:223-229 | Writing an allocation header into unused bytes makes a new allocation and touches no other block |
| `HeapState.ClientWriteInv` | kernel_core/src/memory/heap.rs:223-229 | Whatever the owner writes into its data, up to the end of the last word, touches no header |
| `HeapState.KeptHeader` | kernel_core/src/memory/heap.rs:114-129 | Writing the header of unused bytes changes no word of any allocation |
| `HeapState.KeptRedirected` | kernel_core/src/memory/heap.rs:60-112 | Nor does linking a free block past the one that is taken off |
| `Heap.PageCount` | kernel_core/src/memory/heap.rs:184-186 | At least four pages, and enough bytes |
| `Heap.PageBlocks` | kernel_core/src/memory/heap.rs:187-190 | Whole pages suit every alignment up to a page |
| `Heap.Allocator.constructor` | kernel_core/src/memory/heap.rs:36-53 | A new heap has no blocks |
| `Heap.Allocator.TryRemoveFit` | kernel_core/src/memory/heap.rs:60-112 | The first block of the list that is large enough is unlinked, with exactly one link changed and no word of any allocation, or there is none and nothing changes |
| `Heap.Allocator.Alloc` | kernel_core/src/memory/heap.rs:167-230 | Exactly when the result is a pointer, null or a panic, and the memory, the free list and the allocations after each. A pointer is aligned and leads to bytes of no other block, inside the pages, from the first fit or from new pages, and the rest is put back; no word of any other allocation changes |
| `Heap.Allocator.Carve` | kernel_core/src/memory/heap.rs:207-229 | Header and data lie inside the block; the rest becomes free exactly when more than a header is left; the words written are these headers and no word of another allocation |
| `Heap.Allocator.PutBack` | kernel_core/src/memory/heap.rs:211-221 | The rest begins at the next word; its eight-byte-rounded footprint holds a header although its recorded size may be less; no word of any allocation changes |
| `Heap.Allocator.IsFree` | kernel_core/src/memory/heap.rs:131-144 | Whether the address lies in the recorded bytes of a free block |
| `Heap.Allocator.Dealloc` | kernel_core/src/memory/heap.rs:232-251 | For null and any pointer behind two words of the heap: exactly when an assertion fires, without change, and the exact memory and free list otherwise. Freeing a live allocation with its layout recovers its block and size, no assertion fires, and no word of another allocation changes |
| `Heap.Allocator.ClientWrite` | kernel_core/src/memory/heap.rs:223-229 | A client that writes its own data keeps the heap intact |
| `HeapRuns.Serve` | kernel_core/src/memory/heap.rs:167-251 | One request of a client, with the exact answer and state afterwards; no word of what the client holds changes except by its own write |
| `HeapRuns.WordLasts` | kernel_core/src/memory/heap.rs:167-251 | Over any part of a run in which an allocation is neither released nor written at a word, the word keeps its value |
| `HeapRuns.Run` | kernel_core/src/memory/heap.rs:167-251 | Over every sequence of allocations, releases and writes by a client that touches only what it holds, with a page allocator that gives no page twice: every answer is the one the state demands, all blocks stay apart and inside the pages, no release fails an assertion, and what is held is the fold of the answers; a word that was stored still has its value as long as its allocation is held and it is not stored again; the run stops only at an allocation with an alignment above 16 that panics |
| `HeapRuns.SmallThenAligned` | kernel_core/src/memory/heap.rs:201-206 | As coded, after an allocation of eight bytes one with alignment 32 panics |
| `HeapRuns.ReleaseTwice` | kernel_core/src/memory/heap.rs:236-250 | Releasing an allocation twice in a row is detected if and only if it had padding or the free list was not empty |
| `Heap.Header` | kernel_core/src/memory/heap.rs:236-245 | What dealloc reads is what alloc wrote, and no free block contains the block |
| `HandleBits.FirstZero` | kernel_core/src/collections/handle_allocator.rs:62-67 | The first clear bit of a word |
| `HandleBits.HandleWord` | kernel_core/src/collections/handle_allocator.rs:67-68 | The handle computed from a word and a bit does not overflow 32 bits |
| `HandleBits.Allocator.constructor` | kernel_core/src/collections/handle_allocator.rs:31-40 | All handles are free |
| `HandleBits.Allocator.NextHandle` | kernel_core/src/collections/handle_allocator.rs:56-98 | The least free handle below the maximum is taken; none exactly when all are taken |
| `HandleBits.Allocator.FreeHandle` | kernel_core/src/collections/handle_allocator.rs:110-140 | Out of bounds, not allocated, or exactly this handle becomes free |
| `HandleTree.SameLeaf` | kernel_core/src/collections/handle_map.rs:164-174 | Different handles below 256^depth have different leaf entries |
| `HandleTree.LeafStored` | kernel_core/src/collections/handle_map.rs:46-69 | Writing the leaf entry of a handle changes what is stored for this handle only |
| `HandleTree.GrownPath` | kernel_core/src/collections/handle_map.rs:89-104 | A new table keeps every path there is |
| `HandleWalk.DepthIs` | kernel_core/src/collections/handle_map.rs:153-162 | For a positive maximum, depth and shift are those of the bytes the maximum takes, so all handles are below 256^depth |
| `HandleWalk.NoHandles` | kernel_core/src/collections/handle_map.rs:153-162 | For a maximum of zero the shift is 32 bits and the depth is zero |
| `HandleWalk.WalkStarts` | kernel_core/src/collections/handle_map.rs:165 | The shift drops the bytes above the depth and moves the others to the top |
| `HandleWalk.WalkStep` | kernel_core/src/collections/handle_map.rs:167-171 | Each rotation brings the byte of the next level to the bottom |
| `HandleWalk.WalkEnds` | kernel_core/src/collections/handle_map.rs:200-217 | After the walk the word is the handle again |
| `HandleInvariant.StepInv` | kernel_core/src/collections/handle_map.rs:195-236 | Every atomic step of every thread, with spurious failures and racing table creation, keeps: a set bit has one keeper, the entry of a handle holds its value exactly from the end of its insert to the take of its remove, and paths only grow |
| `HandleTheorems.AssertionHolds` | kernel_core/src/collections/handle_map.rs:211-216 | In every interleaving the assertion that a fresh handle's entry is empty holds |
| `HandleTheorems.FreeBitMeansEmpty` | kernel_core/src/collections/handle_map.rs:231-236 | In every interleaving a free bit has an empty entry |
| `HandleTheorems.IssuedOnce` | kernel_core/src/collections/handle_allocator.rs:56-98 | In every interleaving a handle is issued only while no client and no thread has it, is below the maximum, and does not overflow |
| `HandleTheorems.FreedByRemover` | kernel_core/src/collections/handle_map.rs:231-236 | When a remover clears the bit, it is still set and the entry is already empty |
| `HandleTheorems.RemoveReturnsInserted` | kernel_core/src/collections/handle_map.rs:231-236 | A remover takes exactly the value its handle was issued for |
| `HandleTheorems.OwnedIsStored` | kernel_core/src/collections/handle_map.rs:223-226 | A handle a client has keeps its value in every interleaving |
| `HandleTheorems.OneTablePerEntry` | kernel_core/src/collections/handle_map.rs:89-104 | Any two threads, inserting, removing or reading, whose handles agree so far stand at the same table |
| `HandleTheorems.TablesArePermanent` | kernel_core/src/collections/handle_map.rs:89-104 | A table on a path stays there for the rest of every run |
| `HandleTheorems.GetReturnsIssued` | kernel_core/src/collections/handle_map.rs:223-226 | In every interleaving a get returns nothing or a value that an insert returned its handle for |
| `HandleMap.Map.constructor` | kernel_core/src/collections/handle_map.rs:153-162 | An empty map with all handles free; for a maximum of zero, a map without levels whose prefix is the whole word |
| `HandleMap.Map.LeafTable` | kernel_core/src/collections/handle_map.rs:164-174 | The loop over the rotated word finds the leaf entry of the handle modulo 256^depth, or that there is none |
| `HandleMap.Map.Get` | kernel_core/src/collections/handle_map.rs:223-226 | The value of the handle modulo 256^depth, so of the handle itself exactly for handles below it |
| `HandleMap.Map.ChildTable` | kernel_core/src/collections/handle_map.rs:200-210 | The next table of the path, made if missing, without changing what is stored |
| `HandleMap.Map.MakePath` | kernel_core/src/collections/handle_map.rs:200-210 | The path of the handle is complete and the word is the handle again |
| `HandleMap.Map.Insert` | kernel_core/src/collections/handle_map.rs:180-217 | The least free handle refers to the value from now on and nothing else changes; none exactly when all are taken |
| `HandleMap.Map.TakeValue` | kernel_core/src/collections/handle_map.rs:46-53 | The value of the handle is returned and gone |
| `HandleMap.Map.Remove` | kernel_core/src/collections/handle_map.rs:231-236 | Returns and forgets the value of the handle and frees it; as coded, a handle of 256^depth or more takes away the value of the handle it aliases and returns nothing |
| `HandleMap.AliasedHandle` | kernel_core/src/collections/handle_map.rs:223-236 | A run that shows it: handle 256, never issued, gets the value of handle 0, and removing it returns nothing and loses that value |
| `HandleDrop.ReleasedIs` | kernel_core/src/collections/handle_map.rs:106-127 | The values released for a table are exactly those stored below it |
| `HandleDrop.ReleasedOnce` | kernel_core/src/collections/handle_map.rs:106-127 | No handle's value is released twice |
| `HandleDrop.DropChildren` | kernel_core/src/collections/handle_map.rs:106-140 | The recursion releases these values in order, clears every entry it passes, and never drops a table in use |
| `HandleDrop.Drop` | kernel_core/src/collections/handle_map.rs:239-243 | Dropping the map releases the value of every handle it holds exactly once, and the assertion that a dropped table is empty holds |
| `DeviceTreeReader.ReadToken` | kernel_core/src/platform/device_tree/iter.rs:56-95 | For every blob and offset: the next offset is larger, and aligned to four if the offset was |
| `DeviceTreeReader.FlattenedTreeIter.ReadOne` | kernel_core/src/platform/device_tree/iter.rs:57-93 | One round of the loop reads exactly the item at the offset and moves behind it |
| `DeviceTreeReader.FlattenedTreeIter.Next` | kernel_core/src/platform/device_tree/iter.rs:56-95 | The next token that is not a NOP, the end, or a panic |
| `DeviceTreeReader.FlattenedTreeIter.SkipNode` | kernel_core/src/platform/device_tree/iter.rs:36-51 | Where skipping ends, for every blob |
| `DeviceTreeReader.ReadBegin` | kernel_core/src/platform/device_tree/iter.rs:62-70 | A node's start is read back with its name, up to its padding |
| `DeviceTreeReader.ReadAttribute` | kernel_core/src/platform/device_tree/iter.rs:72-89 | A property is read back with its name from the strings block and its data, up to its padding |
| `DeviceTreeReader.FlattenYields` | kernel_core/src/platform/device_tree/iter.rs:56-95 | Reading undoes flattening: for all items, wherever NOPs are among them and whatever follows the end, exactly their tokens are yielded |
| `DeviceTreeLookup.SkipNodeExact` | kernel_core/src/platform/device_tree/iter.rs:36-51 | On a flattened tree skip_node stops exactly after the matching end |
| `DeviceTreeLookup.SplitExact` | kernel_core/src/platform/device_tree/mod.rs:434 | Splitting a path cuts at every slash and nowhere else |
| `DeviceTreeLookup.FindNode` | kernel_core/src/platform/device_tree/mod.rs:433-471 | The search loop, for every blob and path |
| `DeviceTreeLookup.SearchAgrees` | kernel_core/src/platform/device_tree/mod.rs:433-471 | On the bytes of a forest the search agrees with recursive first-match lookup, with the same cell counts and the same failures |
| `DeviceTreeLookup.CellsFromNearest` | kernel_core/src/platform/device_tree/mod.rs:438-466 | The cell counts reported are those of the nearest proper ancestor on the path that gives them, else the defaults |
| `DeviceTreeLookup.NodePropertyIter.Next` | kernel_core/src/platform/device_tree/iter.rs:182-217 | The next property at depth one |
| `DeviceTreeLookup.OwnProperties` | kernel_core/src/platform/device_tree/iter.rs:182-217 | The iterator yields exactly the node's own properties, in order |
| `DeviceTreeQueries.SplitName` | kernel_core/src/platform/device_tree/iter.rs:336-344 | Name and unit address are the parts before and after the first at-sign |
| `DeviceTreeQueries.NodesNamedIter.Next` | kernel_core/src/platform/device_tree/iter.rs:282-333 | The next direct child of that name while the node is open; after its end the iterator goes on with what follows it, up to the next end, where its depth underflows |
| `DeviceTreeQueries.NamedAgrees` | kernel_core/src/platform/device_tree/iter.rs:282-333 | The iterator yields exactly the direct children of that name, in order, with their unit addresses and properties and the node's own cell counts if it gives any |
| `DeviceTreeQueries.LastSlash` | kernel_core/src/platform/device_tree/mod.rs:545-546 | The position of the last slash |
| `DeviceTreeQueries.FindProperty` | kernel_core/src/platform/device_tree/mod.rs:544-551 | The search for a property by path, for every blob |
| `DeviceTreeQueries.TreeYields` | kernel_core/src/platform/device_tree/iter.rs:56-95 | Bytes that flatten a tree yield exactly its preorder tokens |
| `DeviceTreeQueries.PropertiesAtPath` | kernel_core/src/platform/device_tree/mod.rs:433-471 | iter_node_properties on the bytes of a tree gives exactly the properties of the node that lookup by path finds in the tree |
| `DeviceTreeQueries.NamedAtPath` | kernel_core/src/platform/device_tree/mod.rs:490-533 | iter_nodes_named gives exactly the children of that name of the node that lookup by path finds |
| `DeviceTreeQueries.PropertyAtPath` | kernel_core/src/platform/device_tree/mod.rs:544-551 | find_property gives the first property of that name of the node at the path before the last slash |
| `DeviceTreeFlatten.RoundTrip` | kernel_core/src/platform/device_tree/iter.rs:56-95 | Every tree that can be written has a blob, built by a flattener with its strings block, from which its preorder tokens are read back |
| `SubtractRanges.Iter.constructor` | kernel_core/src/memory/subtract_ranges.rs:42-57 | Nothing is yielded yet and nothing is taken |
| `SubtractRanges.Iter.LoadSubrange` | kernel_core/src/memory/subtract_ranges.rs:73-93 | The next sub-range that reaches beyond the current position, or none is left |
| `SubtractRanges.Iter.Next` | kernel_core/src/memory/subtract_ranges.rs:68-116 | What was yielded so far is exactly the uncovered part of the whole range before the current position; the end is reported only at the end of the whole range |
| `SubtractRanges.Subtract` | kernel_core/src/memory/subtract_ranges.rs:42-116 | For sub-ranges sorted by start, even overlapping or nested: the ranges yielded cover exactly the whole range without the sub-ranges, and are non-empty, increasing and never adjacent |
| `Scheduler.RoundRobin.constructor` | kernel_core/src/process/thread/scheduler.rs:26-36 | Every processor has an empty queue and its idle thread |
| `Scheduler.RoundRobin.CurrentThread` | kernel_core/src/process/thread/scheduler.rs:40-45 | The current thread of the processor |
| `Scheduler.RoundRobin.NextTimeSlice` | kernel_core/src/process/thread/scheduler.rs:47-75 | The first runnable thread of the queue takes over and those before it and the last one queue up; if none can run, nothing changes, not even the order; other processors are untouched |
| `Scheduler.SliceKeepsThreads` | kernel_core/src/process/thread/scheduler.rs:47-75 | A slice keeps the multiset of queued and current threads |
| `Scheduler.ThreadsKept` | kernel_core/src/process/thread/scheduler.rs:47-75 | So does any number of slices |
| `Scheduler.TurnsInOrder` | kernel_core/src/process/thread/scheduler.rs:47-75 | With states fixed, the runnable threads become current one after the other in queue order |
| `Scheduler.FairTurn` | kernel_core/src/process/thread/scheduler.rs:47-75 | A runnable thread with m runnable threads before it is current after exactly m + 1 slices |
| `Scheduler.FairWait` | kernel_core/src/process/thread/scheduler.rs:47-75 | However the states of the other threads change from slice to slice, a thread at position p that can run is current after at most p + 1 slices |
| `Scheduler.AllKept` | kernel_core/src/process/thread/scheduler.rs:47-75 | Slices with changing states lose no thread |

## Left out

- The `kernel` crate (devices, boot and exception code, system registers): register access and assembly.
- Weak memory orderings: every atomic access is one step of a sequentially consistent machine.
- Reference counts: values are plain data, so the race between loading a pointer and counting a reference in `get` and `ArcSwap` is not modelled.
- The free lists of the buddy allocator and the heap under concurrency: each list operation is one step, and the links of the buddy lists are sequences.
- The wrap-around of `write_index` and `read_index` at 2^64.
- Formatting, colours and level filtering of log records; only the bytes handed to `write_str` matter.
- Overflow of 64-bit pointers in `byte_add` for ranges that leave the 48-bit space, and of layout sizes near 2^63.
- `Value::parse`, `RegistersIter`, `MemRegionIter`, `StringListIter` and the blob header: one-step decoders that would only add easy members.
- ESR and SPSR fields, error conversions, `Debug` output, `boot_all_cores`, interrupt policy and the system call specifications.
- PageTables.Tables.Map: the pages given by the allocator are assumed to be distinct, aligned and not yet in use, which is the contract of `PageAllocator`.
- Buddy.Allocator.Free: says nothing about the lists after a panic.
- Heap.Allocator.Alloc: the pages given are assumed to be aligned and never given before, which is the contract of `PageAllocator`.
- HandleBits.Allocator.NextHandle: spurious failures of the compare-exchange are steps of `HandleProtocol`, not of this method.
- HandleMap.Map.constructor: the other operations are modelled for a maximum above zero only; for zero, `get` shifts by 32 bits and the drop of the first table is unreachable code.
- DeviceTreeLookup.NodePropertyIter.Next: yields the data of a property without parsing it.
- SubtractRanges.Iter.Next: sub-ranges must be sorted by start, as documented; that they do not overlap is not needed.
- Scheduler.RoundRobin.NextTimeSlice: the states of the threads are fixed during one call.
