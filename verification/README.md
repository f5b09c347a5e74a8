# Verified model of the axle kernel, window manager and games

axle is a hobby operating system: a kernel, a boot loader, a window manager (awm) and a set of programs. This
project models six parts of it in Dafny and proves what those parts are for, for all inputs and over whole runs.

- **Kernel heap** (`kernel/std/kheap.c`). `HeapLayout` says what a heap is: page-backed blocks in list order, each with
  address-ordered allocations, and what one `kmalloc` or `kfree` may do to it. `HeapMemory` says how the linked
  headers store it. `KernelHeap.KHeap` is the pointer code, with the five-case search, the best-bet hint, the counters
  and the alignment byte; every field is pinned to the ghost heap by `Valid`. `HeapRuns` lifts the steps to runs and
  drives one heap through any list of calls.
- **Boot page tables** (`bootloader/paging.c`). `PageTables` builds the four-level tree one page at a time and proves
  that walking it is a plain map from pages to frames, with the full frame condition and the failure case.
- **Window occlusion** (`programs/subprojects/awm`). `Rects` is rectangle subtraction, `Occlusion` is the meaning of the
  per-view caches and the theorem about incremental invalidation, `Desktops` has the view lists and the operations that
  change them, `Redraw` the queue of dirty rectangles, `Compositor` splits dirty rectangles between views and background.
- **Crypto** (`kernel/crypto`). `AesTables` ties the tables to arithmetic in GF(2^8), `Aes` is the block cipher,
  `BlockModes` CBC and CBC-MAC, `CounterMode` CTR, `Ccm` authenticated encryption, `Sha256` the streaming hash.
  `AesLaws`, `Sha256Bits`, `Sha256Roots` and `Sha256Abc` say what the functions behind them compute, in the terms of the
  standards: byte by byte, bit by bit, as roots of primes, and on a known block.
- **DOOM automap and tic loop** (`programs/subprojects/doom`). `Automap` and `AutomapDraw` clip and draw lines in exact
  integers, `AutomapReject` says which lines are lost and `AutomapLine` what is shown of the others; `TicLoop` is the producer and consumer of tic commands.
- **2048 and string search** (`programs/subprojects/2048`, `kernel/std/string.c`). `SlideRows` is the rule of the game
  and its tile-by-tile form, `SlideBoard` the four slide routines over the board, `Game2048` the turns. `WordScan` and
  `TableScan` are the word-at-a-time and table-driven scans, `Tokens` is `strtok_r`.

`Options` and `Bytes` hold what several of these share.

Conventions. Code that works by assignment is a method or class proved against a function or predicate of the old
state; the theorems are lemmas about those functions. Addresses are numbers with 0 for NULL. Answers from outside
(page hook, firmware frame allocator, clock, random numbers, the outcome of a scratch-buffer allocation) are
parameters. Integers are unbounded except where a width matters: bytes and words of the crypto and string code are bit
vectors, `bitlen` is taken modulo 2^64, and heap sizes carry the bound under which no 32-bit header field wraps.
`dafny verify dfyconfig.toml` checks the whole project.

Where the code and its evident intent differ, the model follows the code and states exactly when the intent holds:

- `rect_diff` computes the set difference for overlapping rectangles, and for others exactly when the foreground starts
  on the right or bottom edge of the background (`Rects.RectDiff`). `update_occlusions` only calls it on overlap.
  `compositor_queue_rect_difference_to_redraw` calls it on the old and new frame of a moved view without looking
  (awm.c:525, 546 and 761, animations.c:235), so a view that moves further than its own size in one step can leave its
  old frame undrawn (`Redraw.RedrawQueue.QueueDifference`, with the failing move in `Redraw.FarMoveQueuesNothing`).
- A view that shrinks to an empty frame touches no dirty rectangle, so its cache goes stale; incremental invalidation
  equals full recomputation if and only if that does not happen (`Occlusion.IncrementalIsFull`, with the failing case
  in `Occlusion.ShrinkingGoesStale`). None of the callers shown here shrinks a view that far: moves keep the size
  (awm.c:516-546), a drag resize keeps at least 200 pixels each way (awm.c:588-589), and an animation ends at 1 pixel
  by one more than the title bar at least, from a frame that is not empty (animations.c:15-18).
- The automap's clip loop rejects some lines that do show. A segment that comes from beyond a corner of the frame is
  clipped to a row side first, and the rounding can push its next crossing past the frame. `AutomapReject.LostIff` says
  exactly which segments are lost, `AutomapReject.ThinSegmentIsLost` is one, and a segment with a point at least one
  column inside the frame never is (`AutomapReject.OneColumnInside`).
- `kfree` trusts the byte in front of a pointer: a stray pointer frees a live allocation when that byte counts back to
  its header (`KernelHeap.StrayPointerFrees`). Of the pointers whose byte was left there by `ALIGN` it frees exactly the
  live ones (`KernelHeap.KHeap.Kfree`).
- `kmalloc` takes 64-bit requests and keeps 32-bit sizes: a new block holds the request it was made for if and only if
  that is at most 2^32 - 4208 bytes (`HeapLayout.HoldsRequestIff`).
- Encryption chooses its rounds with `!=` and decryption with `>`; they agree exactly for 128, 192 and sizes above 192
  (`Aes.SameRounds`).
- CCM steps the payload counter in `15 - mac_len` bytes, which is nothing for 16-byte codes: then the payload starts on
  the counter block that hides the code (`Ccm.PayloadCounterStarts`). It stores the payload length in two bytes.
  Formatting is still injective for all lengths (`Ccm.FormatDetermines`), but it is prefix-free only below 64 KiB:
  `Ccm.PrefixIff` says exactly when one formatted message is a proper prefix of another, and
  `Ccm.LongMessageHasPrefix` gives one for every message.
- The kernel's `memcmp` reports a difference only where a byte of its first argument is the smaller one
  (`Ccm.Memcmp`); the acceptance of a code is stated with that comparison.
- In 2048 every key that is not dropped spawns a piece, also one that slides nothing, and a full board starts a new
  game even if a move is left (`Game2048.Game.KeyEntered`).

## Model

| member | source | states |
|---|---|---|
| `HeapLayout.PagesFor` | kernel/std/kheap.c:283-295 | the smallest page count, at least the minimum, that holds both headers and the request |
| `HeapLayout.HoldsRequestIff` | kernel/std/kheap.c:277-314 | in the source's 64 and 32 bit arithmetic a new block holds the request it was made for if and only if that is at most 2^32 - 4208 bytes, and up to there its size is the one the model uses |
| `HeapLayout.Payload` | kernel/std/kheap.c:26-39 | the pointer is 16-byte aligned and lies behind the header and the alignment record, by less than 16 bytes more |
| `HeapLayout.GapsTile` | kernel/std/kheap.c:540-626 | walking a block, the gaps and the allocations tile exactly the space passed |
| `HeapLayout.FreeIsSumOfGaps` | kernel/std/kheap.c:420-421 | `size - usage` is exactly the sum of all gaps of the block |
| `HeapLayout.SmallFreeMeansNoGap` | kernel/std/kheap.c:434-462 | skipping a block in case 1 is sound: none of its gaps could have served the request |
| `HeapLayout.InsertKeepsWf` | kernel/std/kheap.c:466-626 | placing a request into a gap that is large enough keeps the block ordered, non-overlapping and inside its pages |
| `HeapLayout.MallocKeepsWf` | kernel/std/kheap.c:333-672 | every outcome of kmalloc keeps the heap well formed, with no empty block |
| `HeapLayout.FreeKeepsWf` | kernel/std/kheap.c:748-785 | kfree of a live pointer keeps the heap well formed, with no empty block |
| `HeapLayout.PayloadInside` | kernel/std/kheap.c:345-348 | the requested bytes lie inside the allocation, aligned, behind its header and alignment byte |
| `HeapLayout.AllocationsDisjoint` | kernel/std/kheap.c:333-672 | two live allocations never share a byte, and none touches a block header |
| `HeapLayout.PointerIsUnique` | kernel/std/kheap.c:696-701 | a pointer value names one live allocation only |
| `HeapLayout.FreeStepIs` | kernel/std/kheap.c:748-774 | kfree is deterministic: it removes the allocation its pointer names |
| `HeapLayout.FreeUndoesMalloc` | kernel/std/kheap.c:682-785 | kfree straight after a successful kmalloc restores every block and allocation |
| `HeapMemory.LinkKeeps` | kernel/std/kheap.c:510-607 | linking a header in turns the stored image of the old lists into that of the new ones, doubly linked, magic numbers included |
| `HeapMemory.UnlinkKeeps` | kernel/std/kheap.c:753-758 | unlinking a header turns the stored image into that of the lists without it |
| `HeapMemory.PlaceStored` | kernel/std/kheap.c:469-622 | after the writes of a placing case memory stores the heap with the request in that gap, and the totals grow by it |
| `HeapMemory.RemoveStored` | kernel/std/kheap.c:748-758 | after the writes of kfree memory stores the heap without the allocation, and the totals shrink by it |
| `HeapMemory.ReleaseStored` | kernel/std/kheap.c:765-773 | after releasing an empty block memory stores the list without it, root and totals adjusted |
| `HeapMemory.UnalignFindsHeader` | kernel/std/kheap.c:42-50 | a recorded alignment byte leads UNALIGN to the header whose pointer this is |
| `HeapMemory.UnalignAlign` | kernel/std/kheap.c:26-50 | UNALIGN undoes ALIGN |
| `KernelHeap.KHeap.constructor` | kernel/std/kheap.c:99-110 | the heap starts empty with no hint and zero counters |
| `KernelHeap.KHeap.AllocateNewPage` | kernel/std/kheap.c:277-327 | a NULL answer changes only the warning count; otherwise an empty block of the right size is recorded and charged |
| `KernelHeap.KHeap.Align` | kernel/std/kheap.c:26-39 | returns the payload address and records the distance in front of it |
| `KernelHeap.KHeap.Place` | kernel/std/kheap.c:466-622 | the writes of cases 2, 3, 4.1 and 4.2 keep every field tied to the heap with the request in the chosen gap |
| `KernelHeap.KHeap.FindRoom` | kernel/std/kheap.c:466-626 | takes the first usable gap of a block, or changes nothing and the block has none |
| `KernelHeap.KHeap.FindBehind` | kernel/std/kheap.c:540-626 | the walk of case 4 finds the first usable gap behind an allocation, or there is none |
| `KernelHeap.KHeap.Look` | kernel/std/kheap.c:420-428 | reads the free bytes and moves the hint to the block exactly when it has more than the best so far |
| `KernelHeap.KHeap.Begin` | kernel/std/kheap.c:403-416 | the scan starts at the hint exactly when that block has more than enough free bytes |
| `KernelHeap.KHeap.Advance` | kernel/std/kheap.c:441-462 | leaves a block for the next one, for the root once, or for fresh pages |
| `KernelHeap.KHeap.CaseOne` | kernel/std/kheap.c:434-462 | case 1 keeps the scan invariant or finishes with the promised step |
| `KernelHeap.KHeap.CasesTwoToFive` | kernel/std/kheap.c:466-657 | cases 2 to 5 keep the scan invariant or finish with the promised step |
| `KernelHeap.KHeap.Kmalloc` | kernel/std/kheap.c:333-672 | terminates; first fit in scan order from the hint; the page hook is asked once, exactly when no block has a gap; a NULL answer leaves the heap unchanged; whatever the outcome the hint stays unless a block looked at has more free bytes, and then is the first of those with the most; every field still agrees with the heap |
| `KernelHeap.KHeap.ScanBlock` | kernel/std/kheap.c:418-657 | one pass: looks at a block, and keeps what the scan knows of gaps and hint or finishes with the promised step and hint |
| `KernelHeap.LeadsNext` | kernel/std/kheap.c:423-428 | looking at one block more keeps the hint on the first of those with the most free bytes |
| `KernelHeap.LeadsOnce` | kernel/std/kheap.c:448-453 | the blocks looked at a second time after the restart do not change the hint |
| `KernelHeap.HintDetermined` | kernel/std/kheap.c:403-657 | the new hint is determined by the old hint and the blocks before the call |
| `KernelHeap.KHeap.Unlink` | kernel/std/kheap.c:748-758 | removes one allocation from lists and accounts and nothing else |
| `KernelHeap.KHeap.Release` | kernel/std/kheap.c:765-773 | gives an empty block back and clears a hint to it |
| `KernelHeap.KHeap.Rehint` | kernel/std/kheap.c:777-783 | moves the hint to the freed-from block exactly when it has more free bytes, compared as C ints |
| `KernelHeap.AsIntIs` | kernel/std/kheap.c:779-782 | the compared sizes are C ints: equal modulo 2^32, from -2^31 up |
| `KernelHeap.KHeap.CleanUp` | kernel/std/kheap.c:763-785 | releases an emptied block, else applies the hint rule |
| `KernelHeap.KHeap.Refuse` | kernel/std/kheap.c:704-738 | a bad pointer changes only the error counters; an overrun is counted exactly when some low bytes of the magic number are intact |
| `KernelHeap.PartlyIsLowByte` | kernel/std/kheap.c:709-713 | the three overrun tests together hold if and only if the low byte of the magic number is intact |
| `KernelHeap.KHeap.Kfree` | kernel/std/kheap.c:682-794 | NULL counts a warning; otherwise frees exactly the live allocation whose header the alignment byte leads to, if there is one, and is refused if not; a live pointer frees its own allocation, and one that is not live is refused if ALIGN left its byte |
| `KernelHeap.KHeap.MallocThenFree` | kernel/std/kheap.c:333-794 | kmalloc followed at once by kfree restores block list, root and both byte counters |
| `KernelHeap.ScanRestart` | kernel/std/kheap.c:448-453 | starting again at the root loses nothing that was seen from the hint on |
| `KernelHeap.ScanEnd` | kernel/std/kheap.c:455-458 | a scan that reaches the end has seen every block, and none has a gap |
| `KernelHeap.ScanFound` | kernel/std/kheap.c:418-626 | the block where the scan stops is the first fit in scan order |
| `KernelHeap.TurnKeeps` | kernel/std/kheap.c:633-657 | leaving a block without a gap keeps what the scan knows, or proves the failed step |
| `KernelHeap.FoundKeeps` | kernel/std/kheap.c:466-626 | a block with a gap ends the scan with the step kmalloc promises |
| `KernelHeap.LiveMeansMagic` | kernel/std/kheap.c:701-704 | a live pointer leads to its own header, and a pointer whose byte ALIGN left leads to a live header if and only if it is live |
| `KernelHeap.MagicIffLive` | kernel/std/kheap.c:701-704 | a header carries the magic number if and only if it belongs to a live allocation |
| `KernelHeap.StrayPointerFrees` | kernel/std/kheap.c:42-50 | a stray pointer that is not live leads to a live header when the byte read in front of it counts back to that header |
| `KernelHeap.PointerBytes` | kernel/std/kheap.c:696-704 | every live pointer has its alignment byte, and it leads to its header |
| `HeapRuns.MallocAddsOne` | kernel/std/kheap.c:333-672 | a successful kmalloc adds one allocation disjoint from all others and moves none; a failed one changes nothing |
| `HeapRuns.FreeTakesOne` | kernel/std/kheap.c:682-785 | kfree takes away exactly the allocation its pointer names |
| `HeapRuns.StepKeepsWf` | kernel/std/kheap.c:333-785 | every call, refused and NULL frees included, keeps the heap well formed |
| `HeapRuns.RunIsSafe` | kernel/std/kheap.c:333-785 | over every run from the empty heap: well formed, all live allocations pairwise disjoint and clear of every block header |
| `HeapRuns.Execute` | kernel/std/kheap.c:333-794 | any list of kmalloc and kfree calls on one heap passes only through states with two-way links, true counters, no empty block and a valid hint, and each call does exactly its step to heap and hint |
| `HeapRuns.ExecutionIsRun` | kernel/std/kheap.c:333-794 | every such execution from the empty heap is a run, so all of the above holds at each of its states |
| `PageTables.PathIsPage` | bootloader/paging.c:10-16 | two addresses use the same four indices if and only if they agree on bits 12 to 47 |
| `PageTables.PathIsDigits` | bootloader/paging.c:10-16 | the four indices are the base-512 digits of the page number, most significant first |
| `PageTables.TranslateIsLeaf` | bootloader/paging.c:10-16 | the processor's walk, nine bits of the address a level from bit 39 down, ends where the path of the four indices does, with the access every level grants |
| `PageTables.PagesDiffer` | bootloader/paging.c:10-16 | different pages of a region of at most 2^48 bytes have different paths, around the address wrap as well |
| `PageTables.EditFrame` | bootloader/paging.c:223-303 | changing one entry of one table changes no walk that does not pass through it, since each table has one path |
| `PageTables.GrowWalk` | bootloader/paging.c:226-296 | hanging in a new empty table changes no complete walk |
| `PageTables.GrowKeeps` | bootloader/paging.c:226-296 | hanging in a new empty table changes no walk but the one to it and keeps every table reached by exactly one path |
| `PageTables.LeafKeeps` | bootloader/paging.c:299-305 | writing a leaf changes exactly the walk of its page |
| `PageTables.PrefixGrows` | bootloader/paging.c:219-316 | one more page extends the mapped prefix |
| `PageTables.BootTables.constructor` | bootloader/paging.c:457-464 | an empty top-level table translates nothing, and no other table exists |
| `PageTables.BootTables.EnsureTable` | bootloader/paging.c:223-296 | reuses or creates the next table without changing any other walk; takes at most one frame; fails only without frames |
| `PageTables.BootTables.OpenTables` | bootloader/paging.c:223-296 | the tables down to a page's entry: no walk changes but those to tables on its path |
| `PageTables.BootTables.MapPage` | bootloader/paging.c:222-305 | afterwards exactly this page translates to its frame, and tables were added only on its path; on failure no translation changed |
| `PageTables.BootTables.MapRegion` | bootloader/paging.c:215-316 | by the processor's walk every address of the region translates to `phys_start` plus its offset, for the kernel to write, and all others as before; on failure at page k exactly the first k pages are mapped; tables exist only where needed, and every frame taken is one |
| `PageTables.PrefixIsRegion` | bootloader/paging.c:215-316 | mapping page paths in turn is mapping the addresses of the region |
| `PageTables.NeededGrows` | bootloader/paging.c:223-296 | one more page adds tables only on its own path |
| `PageTables.LowIsNotHigh` | bootloader/paging.c:478-479 | no page of the identity map is one of the high map |
| `PageTables.BothMapped` | bootloader/paging.c:478-479 | after both mappings all of RAM is visible at 0 and at 0xFFFF800000000000 |
| `PageTables.Map2` | bootloader/paging.c:453-490 | the tree is well formed, maps RAM twice whenever both calls succeed, and a call fails only when the frames have run out |
| `Rects.CutStep` | programs/subprojects/awm/utils.c:50-171 | cutting a strip off keeps the pieces disjoint and covering exactly what was removed |
| `Rects.RestIsCommon` | programs/subprojects/awm/utils.c:50-171 | what the four cuts leave is the common part if and only if the rectangles overlap or touch on the far edge |
| `Rects.RectDiff` | programs/subprojects/awm/utils.c:50-171 | at most four pairwise disjoint rectangles inside the background, non-empty on overlap, whose union is exactly the difference if and only if the two overlap or the foreground starts on the right or bottom edge |
| `Rects.Keep` | programs/subprojects/awm/utils.c:187-203 | of one free area exactly the part outside the excluded rectangle is kept, in disjoint non-empty pieces |
| `Rects.UpdateOcclusions` | programs/subprojects/awm/utils.c:185-206 | exact set subtraction on a list of any length that keeps its members non-empty and pairwise disjoint |
| `Redraw.RedrawQueue.constructor` | programs/subprojects/awm/composite.c:50-52 | nothing is queued at first |
| `Redraw.RedrawQueue.QueueRect` | programs/subprojects/awm/composite.c:20-36 | an empty rectangle is dropped, and anything once the queue is full; else it goes to the end |
| `Redraw.RedrawQueue.QueueDifference` | programs/subprojects/awm/composite.c:40-48 | nothing outside the old frame is queued; with room for four, the queued rectangles cover old minus new frame if and only if the two overlap or the new one starts on the right or bottom edge of the old one |
| `Redraw.FarRightCutsNothing` | programs/subprojects/awm/utils.c:50-171 | a frame further right than the old one reaches, level with it or taller, gives no piece at all |
| `Redraw.FarMoveQueuesNothing` | programs/subprojects/awm/composite.c:40-48 | a 10 by 10 view moved 20 to the right queues nothing, which is not the difference |
| `Occlusion.SomeViewShows` | programs/subprojects/awm/window.c:614-636 | every pixel inside some frame belongs to a view: the topmost one there |
| `Occlusion.ShownOnce` | programs/subprojects/awm/window.c:614-636 | no pixel belongs to two views |
| `Occlusion.SubtractNext` | programs/subprojects/awm/window.c:1072-1081 | subtracting the next frame above, or skipping one that does not touch, keeps the cache exact so far |
| `Occlusion.SubtractedEmpty` | programs/subprojects/awm/window.c:1078-1080 | stopping early once nothing is left is sound |
| `Occlusion.OthersKeep` | programs/subprojects/awm/window.c:1054-1097 | a skipped view shows the same pixels as before the change |
| `Occlusion.IncrementalIsFull` | programs/subprojects/awm/window.c:1054-1097 | after one view moved, resized, raised, was added or removed, invalidating a covering rectangle makes every cache exact if and only if the changed view leaves nothing stale |
| `Occlusion.ShrinkingGoesStale` | programs/subprojects/awm/window.c:1054-1097 | a view shrunk to nothing keeps a stale cache |
| `Desktops.Desktop.Recompute` | programs/subprojects/awm/window.c:1063-1081 | the drawable rectangles become frame minus everything above, in disjoint non-empty pieces |
| `Desktops.Desktop.QueueComposite` | programs/subprojects/awm/window.c:373-377 | adds the view at the end of the queue when it is absent |
| `Desktops.Desktop.ListsInOrder` | programs/subprojects/awm/window.c:614-636 | what a dock window covers shows nothing of other windows or views, and what a window covers shows no view |
| `Desktops.Desktop.Invalidate` | programs/subprojects/awm/window.c:1054-1097 | views touching the rectangle become exact, all others keep their caches; exactly those that touch and show something are queued besides those that were |
| `Desktops.Desktop.SetFrame` | programs/subprojects/awm/awm.c:516-527 | moving or resizing a view keeps all caches exact if and only if the new frame is not empty or it had nothing drawable; the views shown in the box around both frames are queued |
| `Desktops.Desktop.RaiseWindow` | programs/subprojects/awm/window.c:54-72 | a raised window goes to the top of its list, all caches stay exact, and the views shown in its frame are queued; any other view changes nothing |
| `Desktops.Desktop.AddView` | programs/subprojects/awm/window.c:590-594 | a new view goes to the bottom, all caches stay exact, and it and the views shown in its frame are queued |
| `Desktops.Desktop.RemoveView` | programs/subprojects/awm/window.c:596-612 | a removed view leaves the lists and the queue, all caches stay exact, and the views shown in its frame are queued |
| `Desktops.Desktop.DestroyWindow` | programs/subprojects/awm/window.c:1002-1040 | a destroyed window leaves whichever list it was on and the queue, all caches stay exact, and the views shown in its frame are queued |
| `Compositor.QueueView` | programs/subprojects/awm/composite.c:127-157 | a view is queued exactly the overlaps of its visible rectangles that touch, in order, up to the one that holds the dirty rectangle or uses up the last of it, or until the queue is full, which is never overrun; that leaves the background's share |
| `Compositor.QueueVisible` | programs/subprojects/awm/composite.c:128-156 | one visible rectangle: outside the dirty one nothing changes; a full queue is reported exactly when there is one; else its overlap is queued and taken off the background's share |
| `Compositor.VisitView` | programs/subprojects/awm/composite.c:117-158 | transparent views and views whose frame misses the rectangle get nothing and leave the background's share alone; any other exactly its share |
| `Compositor.CompositeRect` | programs/subprojects/awm/composite.c:109-173 | background and queued draws share out the dirty rectangle exactly and without overlap, and each view gets exactly its share of what those above it left; with exact caches and room in each queue for the view's touching rectangles, each pixel goes to the topmost view there if opaque, else to the background |
| `Compositor.ExactIsPainted` | programs/subprojects/awm/composite.c:109-173 | exact caches and no full queue make the shares the right ones |
| `Compositor.RenderDirty` | programs/subprojects/awm/composite.c:109-173 | every queue ends as the old one followed by its shares, each dirty rectangle shared out as above given the queues before it, and with exact caches and room for all touching rectangles beforehand each pixel goes to the right painter |
| `Automap.QuotBetween` | programs/subprojects/doom/am_map.c:926-953 | the truncated fraction of a difference stays between none and all of it |
| `Automap.ClipPoint` | programs/subprojects/doom/am_map.c:925-958 | no division by zero; computes the crossing of `Meet`, which is on the violated side, inside the segment's box, and off the line by at most one row or column, one of each at the bottom |
| `Automap.MeetIs` | programs/subprojects/doom/am_map.c:925-958 | the crossing is on the violated side, in the box and close to the line |
| `Automap.ClipStep` | programs/subprojects/doom/am_map.c:960-969 | each pass violates one side less and strictly shortens |dx| + |dy| |
| `Automap.ClipLoop` | programs/subprojects/doom/am_map.c:916-975 | terminates and refines the recursive clip; accepts only with both endpoints inside, rejects only when what is left is beyond one side |
| `Automap.ClipLine` | programs/subprojects/doom/am_map.c:904-975 | refines the recursive clip of `ClipSpec`; at most four passes; endpoints stay in the starting box; an endpoint already inside is kept and never rejected; what is left of a rejected segment has no pixel inside; both ends stay near the original line |
| `Automap.SharedMeansOutside` | programs/subprojects/doom/am_map.c:910-914 | a segment beyond one side has no point of its box in the frame |
| `AutomapReject.RejectedAtOnce` | programs/subprojects/doom/am_map.c:910-975 | a segment rejected without a pass has no pixel of its box in the frame |
| `AutomapReject.RejectedFromCorner` | programs/subprojects/doom/am_map.c:904-975 | a rejected segment with a point in the frame comes from beyond a corner towards the opposite row side, and its row crossing was still beyond its column side |
| `AutomapReject.OneColumnInside` | programs/subprojects/doom/am_map.c:904-975 | a segment with any point in the frame's rows and at least one column inside its edges is never rejected |
| `AutomapReject.RejectedShows` | programs/subprojects/doom/am_map.c:904-975 | a rejected segment has a point in the frame if and only if it meets the column side its first endpoint lies beyond in one of the frame's rows |
| `AutomapReject.LostIff` | programs/subprojects/doom/am_map.c:904-975 | a segment shows and is rejected if and only if it enters by that column side, its row crossing is still beyond it, and the column crossing computed next is beyond the row side of the other endpoint |
| `AutomapReject.ThinSegmentIsLost` | programs/subprojects/doom/am_map.c:904-975 | (-1,-7) to (1,15) is rejected in an 8 by 6 frame although it goes through (0,4) |
| `Automap.NearCross` | programs/subprojects/doom/am_map.c:926-953 | rounding of successive clips adds up to a bounded distance from the line |
| `AutomapDraw.StepOn` | programs/subprojects/doom/am_map.c:1022-1054 | the decision variable keeps its meaning and range |
| `AutomapDraw.ShortSide` | programs/subprojects/doom/am_map.c:1022-1054 | the shorter side never overshoots and is complete exactly at the end |
| `AutomapDraw.DrawWide` | programs/subprojects/doom/am_map.c:1023-1038 | colours exactly the dots of the line, one per column, each within half a pixel, ending on the endpoint |
| `AutomapDraw.DrawTall` | programs/subprojects/doom/am_map.c:1039-1054 | colours exactly the dots of the line, one per row, each within half a pixel, ending on the endpoint |
| `AutomapDraw.DrawFline` | programs/subprojects/doom/am_map.c:984-1055 | refuses exactly the lines with an endpoint outside; otherwise writes exactly the dots of the line |
| `AutomapDraw.ClipMline` | programs/subprojects/doom/am_map.c:848-975 | a line beyond one side of the map window is rejected, any other is clipped as `ClipSpec` says: never rejected with an endpoint in the frame or a point one column inside; the result is in the frame, in the box of the projected ends and near the projected line |
| `AutomapDraw.DrawMline` | programs/subprojects/doom/am_map.c:1062-1070 | what survives clipping is drawn, never refused, and nothing else is written: the line runs from one end of the clipped segment to the other, an end whose projection is in the frame is the first or last dot itself, and a line with a point one column inside is drawn |
| `AutomapDraw.ToFrameIs` | programs/subprojects/doom/am_map.c:90-106 | rows count down from the lower edge of the map window and columns right from its left edge, by whole pixels of the scaled distance |
| `AutomapLine.EndsOnSides` | programs/subprojects/doom/am_map.c:904-975 | clipping leaves an end of an accepted segment alone, in the frame, or puts it on a side of the frame that it was beyond |
| `AutomapLine.ClippedEnds` | programs/subprojects/doom/am_map.c:904-975 | and both ends are close to the line |
| `AutomapLine.DotsNear` | programs/subprojects/doom/am_map.c:1022-1054 | every dot is close to the projected segment |
| `AutomapLine.EveryColumn` | programs/subprojects/doom/am_map.c:1022-1054 | the line has a dot in every column between its ends |
| `AutomapLine.EveryRow` | programs/subprojects/doom/am_map.c:1022-1054 | the line has a dot in every row between its ends |
| `AutomapLine.SegmentIsShown` | programs/subprojects/doom/am_map.c:904-1070 | every lattice point of a segment six pixels inside the frame has a dot at most seven pixels away, in its column or, for a steep segment, in its row; such a segment is never rejected |
| `TicLoop.SquashIs` | programs/subprojects/doom/d_loop.c:672-684 | a repeated tic has no chat and no special buttons, and keeps all else |
| `TicLoop.SquashTwice` | programs/subprojects/doom/d_loop.c:672-684 | squashing a repeated command again changes nothing |
| `TicLoop.ModDistinct` | programs/subprojects/doom/d_loop.c:136-194 | tics less than a ring apart use different slots |
| `TicLoop.Loop.constructor` | programs/subprojects/doom/d_loop.c:60-108 | nothing built, nothing run, the clock at the start |
| `TicLoop.Loop.BuildNewTic` | programs/subprojects/doom/d_loop.c:136-194 | builds exactly when the lead is below 5 in old sync, 3 or, connected, 9 in new, overwriting no unrun slot |
| `TicLoop.Loop.NetUpdate` | programs/subprojects/doom/d_loop.c:203-250 | takes over the clock, counts down the tics to be skipped and builds the rest as far as the lead allows, none as a drone or when timing a demo; loses no built tic |
| `TicLoop.Loop.SecondUpdate` | programs/subprojects/doom/d_loop.c:225-239 | a second update at the same reading builds nothing |
| `TicLoop.Loop.BuiltInAll` | programs/subprojects/doom/d_loop.c:225-246 | over any readings, backwards ones included, the tics built are those from the last reading plus the skip to the furthest reading, as far as there is room |
| `TicLoop.Loop.BuiltByClock` | programs/subprojects/doom/d_loop.c:225-246 | however many tics are run in between, no more are built than the clock has moved on |
| `TicLoop.Loop.RunOnce` | programs/subprojects/doom/d_loop.c:804-817 | runs the command of its tic, for the local player alone when not connected, and leaves it squashed for the repeats |
| `TicLoop.Loop.RunTicdup` | programs/subprojects/doom/d_loop.c:797-817 | runs one tic exactly `ticdup` times, and the check on `lowtic` never fires |
| `TicLoop.Loop.Counts` | programs/subprojects/doom/d_loop.c:735-763 | all available tics, but in old sync with the clock behind them one more than it has moved, keeping one in hand; always at least one |
| `TicLoop.Loop.Prepare` | programs/subprojects/doom/d_loop.c:724-735 | updates to the clock, or builds one tic when timing a demo |
| `TicLoop.Loop.WaitForTics` | programs/subprojects/doom/d_loop.c:765-785 | turn by turn: updates until there are enough tics or the clock has moved on, and does not wait when there are enough |
| `TicLoop.Loop.RunTics` | programs/subprojects/doom/d_loop.c:787-820 | runs exactly the tics decided on, with one update to the clock behind each |
| `TicLoop.Loop.TryRunTics` | programs/subprojects/doom/d_loop.c:706-821 | runs exactly the tics decided on, each `ticdup` times, and none if the wait expires; what is built and what the clock is taken to be follows reading by reading; over every run `gametic/ticdup` never passes `maketic`, the lead is bounded, every command has run in order, as built once and squashed on repeats, and neither I_Error fires |
| `AesTables.InvSboxUndoes` | kernel/crypto/aes.c:18-54 | the inverse S-box undoes the S-box on every byte |
| `AesTables.SboxIsStandard` | kernel/crypto/aes.c:18-35 | every S-box entry is the affine map of the multiplicative inverse in GF(2^8), section 5.1.1 of FIPS 197 |
| `AesTables.GfMulIsProduct` | kernel/crypto/aes.c:56-185 | the six columns of `gf_mul` multiply by 2, 3, 9, 11, 13 and 14 in GF(2^8) |
| `Aes.UnsubUndoes` | kernel/crypto/aes.c:543-581 | InvSubBytes undoes SubBytes on every state |
| `Aes.ShiftRotates` | kernel/crypto/aes.c:584-632 | the cell moves are rotation of row r by r, left and back |
| `Aes.LoadByColumns` | kernel/crypto/aes.c:819-834 | block bytes fill the state column by column |
| `Aes.UnshiftUndoes` | kernel/crypto/aes.c:584-632 | InvShiftRows undoes ShiftRows |
| `Aes.TimesAdds` | kernel/crypto/aes.c:634-812 | multiplication by the constants distributes over addition |
| `Aes.UnmixFirst` | kernel/crypto/aes.c:634-812 | the inverse matrix applied to a mixed column gives back its byte |
| `Aes.UnmixUndoes` | kernel/crypto/aes.c:634-812 | InvMixColumns undoes MixColumns on every state |
| `Aes.KeyedTwice` | kernel/crypto/aes.c:500-541 | AddRoundKey is its own inverse |
| `Aes.BeforeUndoesAfter` | kernel/crypto/aes.c:836-925 | undoing n rounds gives back the state before them, for every n and every round keys |
| `Aes.DecryptUndoesEncrypt` | kernel/crypto/aes.c:815-944 | decryption undoes encryption for every block, round-key array and round count |
| `Aes.SameRounds` | kernel/crypto/aes.c:846-914 | both directions choose the same round count if and only if the size is 128, 192 or above 192 |
| `Aes.AddRoundKey` | kernel/crypto/aes.c:500-541 | the state becomes the old state with the four key words added, byte by byte |
| `Aes.SubBytes` | kernel/crypto/aes.c:543-561 | every byte is replaced by its S-box entry |
| `Aes.InvSubBytes` | kernel/crypto/aes.c:563-581 | every byte is replaced by its inverse S-box entry |
| `Aes.ShiftRows` | kernel/crypto/aes.c:584-607 | row r is rotated left by r |
| `Aes.InvShiftRows` | kernel/crypto/aes.c:609-632 | row r is rotated right by r |
| `Aes.MixRows` | kernel/crypto/aes.c:643-658 | each row as written with table entries is the product with the matrix of section 5.1.3 of FIPS 197 |
| `Aes.UnmixRows` | kernel/crypto/aes.c:733-748 | each row as written is the product with the inverse matrix |
| `Aes.MixColumns` | kernel/crypto/aes.c:634-722 | in place, every column is multiplied by the matrix |
| `Aes.InvMixColumns` | kernel/crypto/aes.c:724-812 | in place, every column is multiplied by the inverse matrix |
| `Aes.AesEncrypt` | kernel/crypto/aes.c:815-878 | runs the rounds of the recursive definition for the key size |
| `Aes.AesDecrypt` | kernel/crypto/aes.c:880-944 | runs the inverse rounds of the recursive definition for the key size |
| `Aes.EncryptThenDecrypt` | kernel/crypto/aes.c:815-944 | the two calls in sequence return the block, for all three key sizes and any round keys |
| `Aes.SubWordIsBytewise` | kernel/crypto/aes.c:460-469 | SubWord substitutes each byte in place |
| `Aes.RotWordTurns` | kernel/crypto/aes.c:4 | the rotation moves every byte one place up |
| `Aes.RconDoubles` | kernel/crypto/aes.c:474-476 | each round constant is x times the one before, in the top byte |
| `Aes.KeySetup` | kernel/crypto/aes.c:471-498 | the schedule follows the recurrence of section 5.2 of FIPS 197; other sizes change nothing |
| `AesLaws.FirstCell` | kernel/crypto/aes.c:819-844 | after the first key, row r and column c hold byte 4c + r of the block plus its key byte |
| `AesLaws.RoundCell` | kernel/crypto/aes.c:836-925 | each cell after a round: substitution, row r turned by r, the matrix, the key byte, sections 5.1.1 to 5.1.4 of FIPS 197 |
| `AesLaws.LastCell` | kernel/crypto/aes.c:846-878 | the last round leaves out the matrix, and the block is read out by columns |
| `AesLaws.RoundsAre` | kernel/crypto/aes.c:846-914 | 10, 12 and 14 rounds |
| `AesLaws.RconIsPower` | kernel/crypto/aes.c:474-476 | round constant j is x to the power j, in the top byte |
| `AesLaws.TurnedByte` | kernel/crypto/aes.c:490-497 | at every nk-th word the word before is turned, substituted and added to a power of x, byte by byte |
| `AesLaws.KeptByte` | kernel/crypto/aes.c:490-497 | for 256-bit keys it is substituted half way between, and elsewhere taken over |
| `AesLaws.ExpandedByte` | kernel/crypto/aes.c:471-498 | the expanded key starts with the key, and every further word is the sum with the one nk before |
| `BlockModes.DecipherInverts` | kernel/crypto/aes.c:815-944 | with a usable key the deciphering function inverts the enciphering one |
| `BlockModes.XorBuf` | kernel/crypto/aes.c:187-193 | exactly the window of the buffer is combined with the mask |
| `BlockModes.CbcBlock` | kernel/crypto/aes.c:207-213 | block j of the ciphertext is the encryption of block j combined with block j - 1, section 6.2 of NIST SP 800-38A |
| `BlockModes.CbcRoundTrip` | kernel/crypto/aes.c:195-264 | CBC decryption undoes CBC encryption for any whole number of blocks |
| `BlockModes.MacIsLastBlock` | kernel/crypto/aes.c:218-241 | the CBC-MAC of at least one block is the last CBC block |
| `BlockModes.EncryptCbc` | kernel/crypto/aes.c:195-216 | refuses exactly partial blocks; otherwise the output is the CBC encryption, also in place, and nothing else is written |
| `BlockModes.DecryptCbc` | kernel/crypto/aes.c:243-264 | refuses exactly partial blocks; otherwise the output is the CBC decryption, also in place, and nothing else is written |
| `BlockModes.CbcThereAndBack` | kernel/crypto/aes.c:195-264 | encrypting a buffer in place and decrypting it restores it |
| `BlockModes.EncryptCbcMac` | kernel/crypto/aes.c:218-241 | refuses exactly partial blocks; for at least one block the code is the last CBC block, for an empty input what the unset block held |
| `BlockModes.NextAddsOne` | kernel/crypto/aes.c:266-275 | the carry adds one modulo 256 to the number of bytes |
| `BlockModes.ValueDetermines` | kernel/crypto/aes.c:266-275 | a counter block is determined by its value |
| `CounterMode.IncrementIv` | kernel/crypto/aes.c:266-275 | steps exactly the counting bytes; nothing happens when there are none |
| `CounterMode.CounterBlockValue` | kernel/crypto/aes.c:288-294 | block i uses the IV plus i modulo 2^128 |
| `CounterMode.CtrAt` | kernel/crypto/aes.c:277-298 | byte j is combined with byte j mod 16 of the encrypted counter block j / 16, section 6.5 of NIST SP 800-38A |
| `CounterMode.CtrTwice` | kernel/crypto/aes.c:300-304 | CTR is its own inverse for every length |
| `CounterMode.CtrInPlace` | kernel/crypto/aes.c:285-297 | encrypts exactly the window of the buffer, for every length from 0 |
| `CounterMode.EncryptCtr` | kernel/crypto/aes.c:277-298 | the output is the CTR encryption of the input, also in place |
| `CounterMode.CtrThereAndBack` | kernel/crypto/aes.c:277-304 | encrypting twice restores every buffer |
| `Ccm.FormatAssoc` | kernel/crypto/aes.c:433-445 | pads associated data to whole blocks, by a whole block when it ends on one |
| `Ccm.FormatPayload` | kernel/crypto/aes.c:447-458 | pads the payload to whole blocks and holds it unchanged |
| `Ccm.Formatted` | kernel/crypto/aes.c:421-458 | the formatted message is always a whole number of blocks, at least one |
| `Ccm.FlagsAre` | kernel/crypto/aes.c:421-431 | the flags name the associated data, half the code length less one and the length field less one, appendix A.2.1 of NIST SP 800-38C |
| `Ccm.FirstCounterIs` | kernel/crypto/aes.c:414-419 | the first counter block is the length field less one, the nonce and a count of zero |
| `Ccm.FormatDetermines` | kernel/crypto/aes.c:421-458 | the formatted message determines payload, associated data, nonce and code length, for payloads of every length |
| `Ccm.SameHead` | kernel/crypto/aes.c:421-445 | the part in front of the payload shows its length modulo 64 KiB only |
| `Ccm.PrefixIff` | kernel/crypto/aes.c:421-458 | one formatted message is a proper prefix of another if and only if they differ in the payload only, the lengths by a positive multiple of 64 KiB, and the longer payload continues the shorter one and its padding |
| `Ccm.ShortMessagesPrefixFree` | kernel/crypto/aes.c:421-458 | below 64 KiB no formatted message is a proper prefix of another |
| `Ccm.LongMessageHasPrefix` | kernel/crypto/aes.c:421-458 | every formatted message is a proper prefix of that of the same payload with 64 KiB of zeros behind it |
| `Ccm.PayloadCounterStarts` | kernel/crypto/aes.c:346-350 | the payload starts one step after the code's counter block, and on it exactly when the code has 16 bytes |
| `Ccm.OpenUndoesSeal` | kernel/crypto/aes.c:306-412 | opening a sealed message returns the payload and accepts its code |
| `Ccm.EncryptCcm` | kernel/crypto/aes.c:306-356 | succeeds exactly for accepted parameters with a buffer, for every key size; the output is the sealed message; otherwise nothing is written |
| `Ccm.DecryptCcm` | kernel/crypto/aes.c:358-412 | succeeds exactly for more bytes than the code with a buffer, for every key size; the output is the opened payload, or zeros when a wanted code is not accepted |
| `Ccm.Memcmp` | kernel/std/memory.c:6-18 | returns 0 if no byte of the first buffer is below its partner, and -1 otherwise |
| `Ccm.SealThenOpen` | kernel/crypto/aes.c:306-412 | the two calls in sequence succeed exactly for accepted parameters and a non-empty payload, return it, and report `mac_auth` TRUE |
| `Sha256.FoldAppend` | kernel/crypto/sha256.c:79-92 | compressing whole blocks and then the rest is compressing all |
| `Sha256.PadZeros` | kernel/crypto/sha256.c:98-111 | the fewest zero bytes that make room for the length in whole blocks |
| `Sha256.Padded` | kernel/crypto/sha256.c:98-121 | whole blocks, with 9 to 72 bytes of padding, section 5.1.1 of FIPS 180-4 |
| `Sha256.PaddedIsBlocks` | kernel/crypto/sha256.c:100-121 | the padded message is its whole blocks followed by one block for tails under 56 bytes and two otherwise |
| `Sha256.FinalState` | kernel/crypto/sha256.c:94-122 | from the context's state those blocks give the hash of the padded message, with the bit length modulo 2^64 |
| `Sha256.FillSchedule` | kernel/crypto/sha256.c:28-31 | the message schedule of section 6.2.2 of FIPS 180-4 |
| `Sha256.Transform` | kernel/crypto/sha256.c:24-63 | one block is compressed as in section 6.2.2 of FIPS 180-4 |
| `Sha256Bits.MajorityBit` | kernel/crypto/sha256.c:7 | each bit is that of at least two of the three words |
| `Sha256Bits.ChooseBit` | kernel/crypto/sha256.c:6 | each bit of the first word chooses between the other two |
| `Sha256Bits.BigSigma0Bit` | kernel/crypto/sha256.c:8 | bit i is the sum of bits i + 2, i + 13 and i + 22, around the word |
| `Sha256Bits.BigSigma1Bit` | kernel/crypto/sha256.c:9 | bit i is the sum of bits i + 6, i + 11 and i + 25, around the word |
| `Sha256Bits.SmallSigma0Bit` | kernel/crypto/sha256.c:10 | bit i is the sum of bits i + 7 and i + 18 around the word and bit i + 3 if there is one |
| `Sha256Bits.SmallSigma1Bit` | kernel/crypto/sha256.c:11 | bit i is the sum of bits i + 17 and i + 19 around the word and bit i + 10 if there is one |
| `Sha256Bits.ShiftRegister` | kernel/crypto/sha256.c:42-53 | six of the eight working variables are the other two of one, two and three steps before |
| `Sha256Roots.ConstantsAreRoots` | kernel/crypto/sha256.c:13-22 | constant t holds the first 32 bits behind the point of the cube root of prime number t |
| `Sha256Roots.InitialIsRoots` | kernel/crypto/sha256.c:69-76 | word j of the initial value holds those of the square root of prime number j |
| `Sha256Roots.SievedIsPrime` | kernel/crypto/sha256.c:13-22 | below 361 the numbers without a prime factor up to 17, and those primes, are exactly the primes |
| `Sha256Abc.HashOfAbc` | kernel/crypto/sha256.c:24-134 | the hash of abc is ba7816bf 8f01cfea 414140de 5dae2223 b00361a3 96177a9c b410ff61 f20015ad |
| `Sha256.StoreDigest` | kernel/crypto/sha256.c:124-133 | the eight words are written most significant byte first |
| `Sha256.Context.constructor` | kernel/crypto/sha256.c:65-77 | a new context stands for the empty message |
| `Sha256.Context.PutByte` | kernel/crypto/sha256.c:84-90 | a byte extends the message; a full block is compressed and counted |
| `Sha256.Context.Update` | kernel/crypto/sha256.c:79-92 | extends the message by all bytes, for any length below 2^32 |
| `Sha256.Context.Pad` | kernel/crypto/sha256.c:98-122 | leaves the state of the padded message, in both tail cases |
| `Sha256.Context.Final` | kernel/crypto/sha256.c:94-134 | writes the SHA-256 digest of every byte given so far and nothing else |
| `Sha256.HashChunks` | kernel/crypto/sha256.c:65-134 | however a message is cut into updates the digest is that of the whole |
| `WordScan.MagicIs` | kernel/std/string.c:296-297 | the magic number is what the source computes in 64 bits |
| `WordScan.SuspectIff` | kernel/std/string.c:351-363 | the test fires exactly on words with a zero byte or with top byte 128 |
| `WordScan.QuietMeansNoStop` | kernel/std/string.c:351-363 | a word that passes both tests holds neither a terminator nor the character |
| `WordScan.SkipIsSafe` | kernel/std/string.c:312-363 | a skipped word holds no stop |
| `WordScan.Strchrnul` | kernel/std/string.c:267-394 | the first match or terminator, for every string, character and alignment |
| `WordScan.Strchr` | kernel/std/string.c:440-519 | the first match, or NULL exactly when the terminator comes first |
| `TableScan.FillTable` | kernel/std/string.c:234-244 | the table marks exactly the characters, and the terminator when asked |
| `TableScan.FirstFour` | kernel/std/string.c:246-252 | the first four bytes are tested in turn before aligning |
| `TableScan.OnesSpan` | kernel/std/string.c:255-264 | the formula over the four entries gives the first stop of the group |
| `TableScan.ZerosSpan` | kernel/std/string.c:422-432 | the formula over the four entries gives the first stop of the group |
| `TableScan.Strspn` | kernel/std/string.c:223-265 | the exact length of the longest prefix of accepted characters, for every string, set and alignment |
| `TableScan.Strcspn` | kernel/std/string.c:396-433 | the exact length of the longest prefix free of rejected characters |
| `TableScan.Strpbrk` | kernel/std/string.c:435-438 | the first character of the set, or NULL exactly when there is none |
| `Tokens.StrtokR` | kernel/std/string.c:116-138 | skips delimiters, takes the maximal run, overwrites at most the delimiter behind it, and saves where to go on |
| `Tokens.RunsTake` | kernel/std/string.c:129-135 | a maximal run and the runs of the rest are the runs of the text |
| `Tokens.TokenRuns` | kernel/std/string.c:123-135 | the token of one call and the runs of what it leaves are the runs of the text |
| `Tokens.Tokenize` | kernel/std/string.c:116-138 | repeated calls yield exactly the maximal delimiter-free runs in order, each still readable at its pointer, and overwrite only delimiters |
| `SlideRows.StackIsSlide` | programs/subprojects/2048/2048.c:415-426 | visiting the squares in order makes the row packed, joined once from the leading edge, and padded |
| `SlideRows.MergedPush` | programs/subprojects/2048/2048.c:362-375 | joining the next tile with the last one placed unless that was already joined is the front-to-back rule |
| `SlideRows.SlideKeepsSum` | programs/subprojects/2048/2048.c:362-380 | a slide keeps the sum of a row |
| `SlideRows.SlideKeepsGood` | programs/subprojects/2048/2048.c:362-380 | a slide keeps every tile a power of two of at least two |
| `SlideRows.MovesIffChanged` | programs/subprojects/2048/2048.c:415-428 | some tile moves when visited if and only if the slide changes the row |
| `SlideBoard.PossibleAt` | programs/subprojects/2048/2048.c:287-354 | a destination is allowed exactly when it is the last tile and joins, or else the first free square |
| `SlideBoard.ActedKeeps` | programs/subprojects/2048/2048.c:362-380 | after the action the line is as it should be one square further on |
| `SlideBoard.StayKeeps` | programs/subprojects/2048/2048.c:405-427 | a tile no destination takes stays, and the line is one square further on |
| `SlideBoard.MovedIffChanged` | programs/subprojects/2048/2048.c:430-440 | some tile of the board moved if and only if the board shows something else |
| `SlideBoard.Board.SlidePossibility` | programs/subprojects/2048/2048.c:287-354 | the action found with the direction's own index walk is the one on the line, and the source's assertions hold |
| `SlideBoard.Board.TrySlide` | programs/subprojects/2048/2048.c:362-380 | moves exactly when the destination takes the tile, and keeps all other lines |
| `SlideBoard.Board.SlideTileLeft` | programs/subprojects/2048/2048.c:403-428 | one visit to the left: reports a move exactly when there is one |
| `SlideBoard.Board.SlideTileRight` | programs/subprojects/2048/2048.c:443-466 | one visit to the right: reports a move exactly when there is one |
| `SlideBoard.Board.SlideTileUp` | programs/subprojects/2048/2048.c:484-509 | one visit upwards: reports a move exactly when there is one |
| `SlideBoard.Board.SlideTileDown` | programs/subprojects/2048/2048.c:527-553 | one visit downwards: reports a move exactly when there is one |
| `SlideBoard.Board.LeftSlideAllTiles` | programs/subprojects/2048/2048.c:430-440 | every row becomes the slid row; true if and only if the board changed |
| `SlideBoard.Board.RightSlideAllTiles` | programs/subprojects/2048/2048.c:468-482 | every reversed row becomes the slid row; true if and only if the board changed |
| `SlideBoard.Board.UpSlideAllTiles` | programs/subprojects/2048/2048.c:512-525 | every column becomes the slid row; true if and only if the board changed |
| `SlideBoard.Board.DownSlideAllTiles` | programs/subprojects/2048/2048.c:556-569 | every reversed column becomes the slid row; true if and only if the board changed |
| `Game2048.SlidKeepsSum` | programs/subprojects/2048/2048.c:430-569 | a slide in any direction keeps the sum of the board |
| `Game2048.SlidKeepsGood` | programs/subprojects/2048/2048.c:430-569 | a slide in any direction keeps every tile a power of two of at least two |
| `Game2048.KeysOf` | programs/subprojects/2048/2048.c:719-731 | a, s, w, r and the arrows are left, right, up and down |
| `Game2048.Game.constructor` | programs/subprojects/2048/2048.c:626-636 | a game starts with the two pieces of 2 or 4 that the random numbers give, on distinct squares of an empty board |
| `Game2048.Game.SpawnRandomPiece` | programs/subprojects/2048/2048.c:571-591 | puts a 2 or 4 on the free square the random number picks and changes nothing else |
| `Game2048.Game.IsGameOver` | programs/subprojects/2048/2048.c:609-622 | true if and only if no square is free, which is when a spawn would fail |
| `Game2048.Game.StartNewGame` | programs/subprojects/2048/2048.c:626-636 | whatever was on the board, the two pieces that the random numbers give remain |
| `Game2048.Game.SlideFor` | programs/subprojects/2048/2048.c:719-731 | the key's slide, and true if and only if the board changed |
| `Game2048.Game.KeyEntered` | programs/subprojects/2048/2048.c:708-739 | nothing while tiles are still moving; else the slide, then the spawn the random numbers give on a free square, or a new game on a full board |
| `Game2048.TurnSum` | programs/subprojects/2048/2048.c:708-739 | a turn without a new game adds exactly 2 or 4 to the sum of the board |
| `Game2048.Play` | programs/subprojects/2048/2048.c:708-739 | over every key sequence each press is such a turn from one board of powers of two to the next, and every spawn finds a free square |

## Left out

- Kernel heap: locks, `printf`, `krealloc`, `kcalloc` and the contents of allocations; the branch for a padded size of 0, which no 32-bit request reaches.
- KernelHeap.KHeap.Kmalloc: requests are at most 2^32 - 4208 bytes; beyond, a new block does not hold its request (`HeapLayout.HoldsRequestIff`) and the source hands out bytes outside its pages, which is not modelled.
- KernelHeap.KHeap.Kfree: memory the allocator never wrote does not hold the magic number by chance where a stray pointer leads; with it the source would edit links read from arbitrary memory.
- PageTables.BootTables.MapRegion: the value the source returns on success is undefined; the model returns whether and how far it got.
- Boot loader: control registers, firmware calls and the superseded mapping routines.
- Window manager: drawing, messages, animations and the fixed capacity of rectangle lists; the capacity of the per-view draw queue is kept. The rectangle helpers of libagx are taken as "share a pixel", true intersection and bounding box.
- Desktops.Desktop.SetFrame: binding a dragged window to the screen only chooses the new frame, which is a parameter; what a move queues for redrawing is in `Redraw`, and removing a view or window queues its frame there too.
- Compositor.CompositeRect: which pixels a translucent view blends; such views are drawn over the background the model leaves to them.
- CCM: the size of the scratch buffer, which is a sequence here, and full conformance with NIST SP 800-38C, from which the source differs in the padding and counter width it marks itself.
- Ccm.DecryptCcm: nonces of more than 15 bytes and codes of more than 16, for which the source overruns its own block buffers; that a changed message is rejected is not stated either, since the comparison used accepts more than equal codes.
- Ccm.SealThenOpen: only for the three key sizes; for others each call works with whatever its key schedule held, as `Ccm.EncryptCcm` and `Ccm.DecryptCcm` state.
- Sha256.Context.Update: one call takes fewer than 2^32 bytes, since the source counts them in 32 bits and does not return from a longer call; the number of calls is not bounded.
- DOOM: other players' commands and `OldNetSync`, which run only when a network client is connected; the fixed offset of the automap in the frame, which is 0; overflow of fixed-point products.
- TicLoop.Loop.TryRunTics: a list of clock readings that ends early stands for a run observed up to there, so that the wait for the clock always ends in the model.
- 2048: animations and drawing; 32-bit wrap-around of tile values, which would take a tile of 2^31.
- Strings: `strstr`, `strsplit` and the copying routines; the scanned string lies in memory made of whole aligned words, because the scans read whole words; delimiter and accept strings lie outside it.
