# coplus: a verified model

coplus is a Go-style concurrency library in C++. This Dafny project models its four hard parts, and proves
what they promise for every input, every run and every interleaving, or exactly when that fails.

- **The arena's span heap** (`SpanHeap`, `Links`, `Arena`, `SmallObjects`, `BinLists`, `ArenaObjects`, `ArenaTangle`).
  `SpanHeap` is the abstract heap: a tiling of pages by runs, and one free list per length. `Arena` is the in-place
  structure, with page headers, the bitmap of span starts and the list heads in arrays; each of its methods is proved to
  refine an operation of `SpanHeap`. `SmallObjects` is the chain of free objects inside a run, and the choice of the size
  class. `BinLists` is the lists of small-object runs that requests are served from, and `ArenaObjects` puts all
  together: no two blocks held overlap as long as these lists lead to runs of their class, which they do as long as no
  run is moved to the front past another. `ArenaTangle` shows that the source allows such a move, and what it leads to.
- **The queues** (`LocalQueue`, `LocalQueueFifo`, `LocalQueueWrap`, `ChunkStack`, `SlowQueue`, `Handles`, `FastQueue`).
  The lock-free ones are transition systems with one atomic operation per step and any number of threads; the locked ring
  and the composed queue are classes. `Handles` shows that each local queue has one producer, which `LocalQueue` relies on.
- **The scheduler** (`Scheduler`) and **channels** (`Channel`), as interleaved state machines.
- **Message framing and the list codec** (`Text`, `Framing`, `Reassembly`, `ListCodec`, `TableLayout`). `Basics.dfy` holds the option
  type, sequences without repetition, a little arithmetic, and paths of transition relations.

Check everything with `dafny verify dfyconfig.toml`.

Where the code does not keep what it is meant to keep, the model follows the code, proves exactly when that happens,
and shows that it does happen:

- A 60-page request that has to grow the heap splits off a run of no pages (`Arena.Arena.MallocBig`, `Arena.SixtyPageRequestBreaksArena`).
- Sizes 289 to 320 skip the class made for them (`SmallObjects.BinSlot`).
- Freeing an object other than the last from a full small-object run makes a live object allocatable (`SmallObjects.FreeKeepsUnlessFull`, `SmallObjects.FullRunIsReached`).
- A free that moves a run to the front of a list past other runs tangles the list, and a later small request can be served from a chunk in use (`BinLists.RelinkKeepsPairsOnly`, `ArenaObjects.StepKeepsLists`, `ArenaTangle.RequestIsServedFromChunk`).
- Reads that finish out of ticket order spoil delivery (`LocalQueueFifo.FifoIffTicketOrder`, `LocalQueueFifo.OutOfOrderReadsLoseItems`).
- A ring filled while its head is at slot 0 delivers its oldest item last (`SlowQueue.FifoUnlessFilledFromZero`, `SlowQueue.FillingIsOutOfOrder`).
- With the queue list exhausted two handles can share a queue (`Handles.StepKeepsUnlessReclaimed`, `Handles.ExhaustionBreaks`, `Handles.BreakIsReached`).
- After more than 1000 awaits a parent is lost (`Scheduler.AllFinishUnlessWaitQueueOverflows`, `Scheduler.OverflowIsReached`).
- A channel call whose alert is spent before it sleeps is not woken again (`Channel.AlertDecides`, `Channel.WakeUpsCanBeLost`).
- A request with the tail bytes in it is cut (`Framing.ScanInvertsFrames`, `Framing.FrameIsParsed`).
- A frame that comes in several parts loses the last four bytes of the first, unless that has less than four behind the head (`Reassembly.TwoPartsMeetExactly`, `Reassembly.ManyPartsMeetExactly`).

## Model

| member | source | states |
|---|---|---|
| `SpanHeap.GrowKeeps` | include/coplus/arena/arena.h:492-517 | growth keeps the heap well-formed: runs tile the pages 1..N, list k holds exactly the free runs of k pages, each once, no run exceeds kSpanSlotSize |
| `SpanHeap.TakeKeeps` | include/coplus/arena/arena.h:159-175 | handing out a run of the exact length keeps the heap well-formed |
| `SpanHeap.SplitTakeKeeps` | include/coplus/arena/arena.h:187-211 | cutting a longer run keeps the heap well-formed, whatever the two lengths |
| `SpanHeap.FuseKeeps` | include/coplus/arena/arena.h:393-406 | merging two adjacent runs, one of them free, keeps the heap well-formed up to the run in flight |
| `SpanHeap.PutBackKeeps` | include/coplus/arena/arena.h:378-387 | putting a run on the list of its length keeps the heap well-formed |
| `SpanHeap.FirstBigger` | include/coplus/arena/arena.h:181-181 | the search returns the first non-empty list from a length on, and nothing shorter was available |
| `SpanHeap.OwnerOf` | include/coplus/arena/arena.h:523-526 | the scan down stops at the nearest run start at or below a page |
| `SpanHeap.OwnerContains` | include/coplus/arena/arena.h:518-526 | in a tiled heap the run found by scanning down from any page contains that page |
| `SpanHeap.RunsPartitionPages` | include/coplus/arena/arena.h:155-211 | every page belongs to exactly one run |
| `SpanHeap.AllocateKeeps` | include/coplus/arena/arena.h:155-211 | every allocation that succeeds, up to and including 60 pages, leaves a well-formed heap |
| `SpanHeap.AllocateFailsWhenExhausted` | include/coplus/arena/arena.h:178-187 | allocation fails if and only if no free run is long enough and no further chunk fits, and goes wrong if and only if 60 pages are asked for, list 60 is empty and the heap can grow |
| `SpanHeap.AllocateGrantsFreshRun` | include/coplus/arena/arena.h:155-211 | a granted run has k pages, none in a run in use; the runs in use afterwards are those before and this one |
| `SpanHeap.AllocateIsBestFit` | include/coplus/arena/arena.h:158-187 | the run taken or cut is a shortest free run that is long enough; the heap grows only when there is none |
| `SpanHeap.AllocationCuts` | include/coplus/arena/arena.h:158-206 | the runs after a request in closed form: the run taken, a new one of 60 pages if no free one is long enough, has k pages in use and what is longer stays free behind them; all others are as before |
| `SpanHeap.ReleaseReturnsRun` | include/coplus/arena/arena.h:374-439 | a release takes exactly the released run out of use, whatever it merges with |
| `SpanHeap.ReleaseMerges` | include/coplus/arena/arena.h:376-437 | the runs after a release in closed form, from the state before: when it merges upwards, when downwards, and that all other runs are as before |
| `SpanHeap.LongRunsStayApart` | include/coplus/arena/arena.h:376-378 | a run of 12 pages or more is never merged on release |
| `SpanHeap.ShortRunsMergeUp` | include/coplus/arena/arena.h:388-407 | a run of at most 11 pages merges with the run above it if and only if its list is not empty, that run is free and both have at most 60 pages |
| `SpanHeap.Coalesce` | include/coplus/arena/arena.h:388-427 | both merges in sequence keep the heap well-formed and name the surviving run |
| `SpanHeap.Release` | include/coplus/arena/arena.h:374-439 | a release keeps the heap well-formed and its number of pages |
| `SpanHeap.PagesAreConserved` | include/coplus/arena/arena.h:471-482 | free pages and pages in use add up to the pages taken from the heap |
| `SpanHeap.StepTakesOrReturns` | include/coplus/arena/arena.h:146-445 | a request adds one run that meets no other, or changes nothing, exactly if memory is exhausted; a release takes off just its own run |
| `SpanHeap.StepKeeps` | include/coplus/arena/arena.h:146-445 | each operation but that one request keeps well-formedness and the page limit |
| `SpanHeap.EveryRunStaysWellFormed` | include/coplus/arena/arena.h:146-445 | after every sequence of such operations, 60-page requests served from their list included: tiling, exact lists, length bound, conservation |
| `Arena.SlotIsTight` | include/coplus/arena/arena.h:84-84 | SpanSlotOf is the least number of pages with room for a header of 12 bytes and the request |
| `Arena.HandleOfAddressInside` | include/coplus/arena/arena.h:82-86 | any address inside a run of pages maps back to one of its pages |
| `Arena.ChunkAddress` | include/coplus/arena/arena.h:82-86 | the address returned maps back to its run, and the request fits before the run's end |
| `Arena.PagesAreBehindTables` | include/coplus/arena/arena.h:72-86 | the reserved pages are the least number that holds bin_, span_list_ and is_head_, in numbers; every page lies behind those tables, and the last one ends with the reserved memory |
| `Arena.ChunkIsPlaced` | include/coplus/arena/arena.h:82-86 | so a chunk lies behind the tables, in its run and in the reserved memory |
| `Arena.PushKeepsLists` | include/coplus/arena/arena.h:499-502 | linking a page in front keeps all 60 lists acyclic, back-linked and exact, and changes link fields only |
| `Arena.PopKeepsLists` | include/coplus/arena/arena.h:165-170 | so does taking the front of a list (LinkedNodeDeleteHead) |
| `Arena.BridgeKeepsLists` | include/coplus/arena/arena.h:89-92 | so does bridging over a page inside a list (LinkedNodeDelete) |
| `Arena.UnlinkKeepsLists` | include/coplus/arena/arena.h:396-402 | so does unlinking any free page by the hPri == 0 case split |
| `Arena.NeighbourTestIsExact` | include/coplus/arena/arena.h:395-395 | the header test hNext >= 0, Flag > 0, Flag <= maxToMerge holds if and only if the neighbour is free and the sum of lengths allowed |
| `Arena.FoldLists` | include/coplus/arena/arena.h:396-404 | unlinking the free neighbour and adding the lengths leaves headers that represent the merged heap's lists |
| `Arena.FoldSpans` | include/coplus/arena/arena.h:403-425 | and headers and bitmap that represent its runs |
| `Arena.Arena.PushFront` | include/coplus/arena/arena.h:497-502 | the new headers and list heads as a function of the old |
| `Arena.Arena.DropFront` | include/coplus/arena/arena.h:193-194 | the new headers and list heads as a function of the old |
| `Arena.Arena.Unlink` | include/coplus/arena/arena.h:396-402 | the new headers and list heads as a function of the old, both cases |
| `Arena.Arena.SpanHandleOf` | include/coplus/arena/arena.h:518-526 | the loop returns the nearest set bit at or below a page, or 0 |
| `Arena.Arena.AllocChunkFromHeap` | include/coplus/arena/arena.h:471-517 | refines Grow, or fails exactly when the pages are used up and then changes nothing |
| `Arena.Arena.TakeFront` | include/coplus/arena/arena.h:159-176 | refines Take |
| `Arena.Arena.FindBigger` | include/coplus/arena/arena.h:181-181 | the loop computes FirstBigger |
| `Arena.Arena.SplitFront` | include/coplus/arena/arena.h:187-206 | refines SplitTake |
| `Arena.Arena.SplitOffNothing` | include/coplus/arena/arena.h:183-206 | cutting 60 pages off 60 leaves data that represent no heap at all |
| `Arena.Arena.AcquireRun` | include/coplus/arena/arena.h:155-211 | refines Allocate for every length up to 60; in the one case that goes wrong the data represent no heap |
| `Arena.Arena.MallocBig` | include/coplus/arena/arena.h:155-211 | valid afterwards, and refining Allocate, if and only if it is not a 60-page request that has to grow the heap; then the result is an address behind the header of a fresh run with room for the request, behind the arena's own tables and inside the reserved memory, or nothing exactly when exhausted |
| `Arena.Arena.CarveBinRun` | include/coplus/arena/arena.h:251-321 | the span side of a small request: a fresh run of BinSpanSize pages, or nothing exactly when exhausted |
| `Arena.Arena.Fold` | include/coplus/arena/arena.h:393-406 | refines Fuse |
| `Arena.Arena.MergeForward` | include/coplus/arena/arena.h:390-407 | refines FuseForward, through the header test |
| `Arena.Arena.MergeBackward` | include/coplus/arena/arena.h:408-426 | refines FuseBackward, through the scan down and the header test |
| `Arena.Arena.Settle` | include/coplus/arena/arena.h:430-439 | refines PutBack and completes the representation again |
| `Arena.Arena.ReleaseRun` | include/coplus/arena/arena.h:372-445 | refines Release: the invariant that each path breaks is restored, and exactly this run leaves use |
| `Arena.Arena.FreeChunk` | include/coplus/arena/arena.h:333-445 | by any address inside a chunk in use, exactly that chunk is released |
| `Arena.SixtyPageRequestBreaksArena` | include/coplus/arena/arena.h:155-211 | a new arena serves 1024 requests of 60 pages, and the next one leaves it representing no heap |
| `Arena.Arena.MayAbsorb` | include/coplus/arena/arena.h:395-395 | the test in place decides as CanAbsorb says |
| `Arena.Arena.RunBelow` | include/coplus/arena/arena.h:408-408 | the scan down from the page before finds the run that ends there |
| `Arena.Arena.MayMerge` | include/coplus/arena/arena.h:376-378 | the lazy test decides on merging as Merges says |
| `Arena.Arena.constructor` | include/coplus/arena/arena.h:447-469 | the initial spans: 128 of two pages, 1024 of sixty, all free |
| `SmallObjects.SearchSlot` | include/coplus/arena/arena.h:561-570 | the binary search returns the least class above 24 that fits |
| `SmallObjects.BinSlot` | include/coplus/arena/arena.h:546-570 | the class always fits; it is the smallest that fits if and only if the size is not 289..320 |
| `SmallObjects.EveryClassHasShape` | include/coplus/arena/arena.h:527-533 | every class's run holds at least two objects behind the header and its offsets fit 16 bits |
| `SmallObjects.ClassPages` | include/coplus/arena/arena.h:527-533 | objects of up to 800 bytes live in runs of two pages, those of up to 2720 in four, larger ones in six |
| `SmallObjects.LiveObjectIsInside` | include/coplus/arena/arena.h:229-249 | a live object lies between the 16-byte header and the end of the run |
| `SmallObjects.LiveObjectsAreDisjoint` | include/coplus/arena/arena.h:229-249 | any two live objects do so and do not overlap |
| `SmallObjects.MallocKeeps` | include/coplus/arena/arena.h:229-249 | an object handed out was not live, and the free chain stays acyclic, exact and ended by the zero-marked frontier |
| `SmallObjects.FreeKeepsUnlessFull` | include/coplus/arena/arena.h:345-349 | freeing keeps that if and only if it is not a free of another than the last object from a full run |
| `SmallObjects.FullRunHandsOutLiveObject` | include/coplus/arena/arena.h:345-349 | after such a free, the second next request gets a live object |
| `SmallObjects.FullRunIsReached` | include/coplus/arena/arena.h:229-249 | in every class, on any memory, a run of requests leads to where freeing object 0 puts the run out of order |
| `SmallObjects.FreshPageIsInOrder` | include/coplus/arena/arena.h:263-274 | a run as Malloc sets it up, on memory with any contents and clearing one word only, is in order with object 0 live |
| `SmallObjects.StepKeeps` | include/coplus/arena/arena.h:229-249 | each malloc, store anywhere into a live object, and allowed free keeps the run in order |
| `SmallObjects.EveryRunStaysInOrder` | include/coplus/arena/arena.h:229-274 | over every run of operations without such a free: in order, and nUsed counts the live objects |
| `SmallObjects.BinRun.constructor` | include/coplus/arena/arena.h:263-279 | the run as set up in place on any memory is FreshPage and in order |
| `SmallObjects.BinRun.Malloc` | include/coplus/arena/arena.h:229-249 | the in-place update is AfterMalloc, and the offset returned is that of an object that was not live |
| `SmallObjects.BinRun.Free` | include/coplus/arena/arena.h:345-349 | the in-place update is AfterFree, in order afterwards exactly under the condition above |
| `BinLists.BinTable.Push` | include/coplus/arena/arena.h:267-271 | a new run's links in place, as a function of the old |
| `BinLists.BinTable.Unlink` | include/coplus/arena/arena.h:365-371 | an emptied run's links in place, both cases |
| `BinLists.BinTable.Relink` | include/coplus/arena/arena.h:351-356 | the move to the front in place, assignment by assignment |
| `BinLists.PushKeeps` | include/coplus/arena/arena.h:267-271 | a new run in front keeps every class's list exact: all its runs, each once, linked both ways |
| `BinLists.UnlinkKeeps` | include/coplus/arena/arena.h:365-371 | so does taking off an emptied run, which is never the head |
| `BinLists.HeadAndNext` | include/coplus/arena/arena.h:216-221 | from exact lists, the head and the run behind it are runs of the class or absent |
| `BinLists.FirstTwo` | include/coplus/arena/arena.h:216-221 | from exact lists, head and next link are the first two runs of the class's list, or 0 exactly where it ends |
| `BinLists.RelinkKeepsPairsOnly` | include/coplus/arena/arena.h:350-357 | the move to the front leaves exact lists if and only if the list is exactly the head and the run moved, which two links show |
| `ArenaObjects.StepKeeps` | include/coplus/arena/arena.h:146-445 | every big or small request, store or free that touches headers of runs of its class only keeps the heap well-formed and every small-object run in order, even if the lists are no longer exact |
| `ArenaObjects.BlockIsInItsRun` | include/coplus/arena/arena.h:229-249 | a chunk or object that is held lies inside its run and behind the run's header |
| `ArenaObjects.BlockIsPlaced` | include/coplus/arena/arena.h:461-465 | every block held lies behind the arena's own tables and inside the reserved memory |
| `ArenaObjects.BlocksAreApart` | include/coplus/arena/arena.h:146-322 | no two chunks or objects that are held share a byte |
| `ArenaObjects.EveryRunKeepsBlocksApart` | include/coplus/arena/arena.h:146-445 | in every state of every run from an empty arena, up to the first wild access: a request or free that a list leads to a page which is not a run of the class |
| `ArenaObjects.StepIsFine` | include/coplus/arena/arena.h:216-221 | from exact lists no step is a wild access: small requests are served by runs in use |
| `ArenaObjects.RequestIsServedInFront` | include/coplus/arena/arena.h:216-249 | a request is served by the first of the first two runs of its class's list that has a free object: one object becomes live there and nothing else changes |
| `ArenaObjects.RequestTakesNewRun` | include/coplus/arena/arena.h:216-321 | if neither has one, a fresh run goes to the front of the list with one live object, or nothing changes, exactly if memory is exhausted |
| `ArenaObjects.FreeReturnsOrStays` | include/coplus/arena/arena.h:345-373 | a free returns the run if it was its last object, the run does not head its list and the object freed before lies not in its first eighth; else just the object dies, and the head afterwards is this run exactly if it was, or has become emptier |
| `ArenaObjects.BigRequestAddsChunk` | include/coplus/arena/arena.h:155-211 | a big request adds one chunk that meets no other run and leaves all objects alone, or changes nothing, exactly if memory is exhausted |
| `ArenaObjects.BigFreeReturnsChunk` | include/coplus/arena/arena.h:372-445 | freeing a chunk takes just this one away |
| `ArenaObjects.StepKeepsLists` | include/coplus/arena/arena.h:333-373 | a step keeps the lists exact if and only if it does not move a run to the front of a list that holds others than the head and that run |
| `ArenaObjects.UntangledRunIsNeverWild` | include/coplus/arena/arena.h:146-445 | so a run without such a move has exact lists and no wild access; the source does not rule such moves out |
| `ArenaTangle.Tangled` | include/coplus/arena/arena.h:350-357 | with three full runs of class 37, two frees leave a run that points at itself and another that leads to it |
| `ArenaTangle.RequestIsServedFromChunk` | include/coplus/arena/arena.h:216-249 | the source contradicts the unconditional claim: a run of allowed requests and frees, from any empty arena with room for 60 pages, ends where a small request is served inside a chunk in use |
| `LocalQueue.AdmissionIsSafe` | include/coplus/fast_queue.h:248-275 | head_ <= head_fast_ <= admitted <= tail_ <= head_ + QueueSize, and every ticket is below tail_, also with stale revoke counts |
| `LocalQueue.StepKeeps` | include/coplus/fast_queue.h:248-275 | every atomic step of every push and pop keeps the invariant, for any number of consumers |
| `LocalQueue.EveryRunIsSafe` | include/coplus/fast_queue.h:248-275 | hence admission safety in every state of every interleaving |
| `LocalQueue.RevokesLeaveNoDrift` | include/coplus/fast_queue.h:254-269 | when no call is under way, count minus revoke is head_ for pops and tail_ for pushes |
| `LocalQueue.CheckRefusesExactly` | include/coplus/fast_queue.h:263-271 | the check of a pop in closed form, in any interleaving: it refuses exactly if the items published are no more than the earlier pops admitted or undecided, and the revokes that the pop has not seen |
| `LocalQueue.PopIsLetInExactly` | include/coplus/fast_queue.h:261-271 | whatever is under way, a pop whose load, count and check follow each other is let in if and only if fewer earlier pops are admitted or undecided than items are published |
| `LocalQueue.PopAtRest` | include/coplus/fast_queue.h:261-275 | when no call is under way, such a pop is let in if and only if head < tail |
| `LocalQueue.WholePopAtRest` | include/coplus/fast_queue.h:261-275 | and then the whole pop delivers the oldest item not delivered yet |
| `LocalQueue.PushIsLetInExactly` | include/coplus/fast_queue.h:248-258 | whatever pops are under way, a push is let in if tail - head is below the size of the ring, and refused if not |
| `LocalQueue.WholePush` | include/coplus/fast_queue.h:248-260 | and then the whole push publishes the item last |
| `LocalQueue.ReadReturnsNewest` | include/coplus/fast_queue.h:272-272 | a read returns the newest item written into its slot; that is its ticket's item if and only if the producer has not lapped the ticket |
| `LocalQueueFifo.OrderedStepKeeps` | include/coplus/fast_queue.h:248-275 | with reads finishing in ticket order every step keeps exact delivery |
| `LocalQueueFifo.DeliveryIsFifo` | include/coplus/fast_queue.h:248-275 | then in every interleaving the items delivered are a prefix of those published, in order |
| `LocalQueueFifo.NothingUnreadIsOverwritten` | include/coplus/fast_queue.h:257-257 | then no store hits the slot of an item not yet delivered |
| `LocalQueueFifo.OneReaderIsInOrder` | include/coplus/fast_queue.h:261-275 | one read at a time is enough for ticket order |
| `LocalQueueFifo.FinishDecides` | include/coplus/fast_queue.h:272-273 | of distinct items, a finish keeps exact delivery if and only if it is in ticket order |
| `LocalQueueFifo.FifoIffTicketOrder` | include/coplus/fast_queue.h:248-275 | a run of distinct items has delivered exactly a prefix of what was written if and only if every read finished in ticket order |
| `LocalQueueFifo.OutOfOrderReadsLoseItems` | include/coplus/fast_queue.h:253-273 | the other case occurs: a reachable state in which a, b, c were pushed and b, c, c delivered |
| `LocalQueueWrap.PopTestIsExact` | include/coplus/fast_queue.h:268-268 | the > 2147483647 test is the sign test while the true difference is in [-2^31, 2^31) |
| `LocalQueueWrap.PushTestIsExact` | include/coplus/fast_queue.h:253-253 | the fullness test on 32-bit counters is exact for one producer |
| `LocalQueueWrap.SlotsSurviveWrapping` | include/coplus/fast_queue.h:257-272 | wrapped counters select the true slot for every count if and only if QueueSize divides 2^32 |
| `LocalQueueWrap.StepWraps` | include/coplus/fast_queue.h:248-275 | a step of the 32-bit queue is a step of the unbounded queue seen modulo 2^32 |
| `LocalQueueWrap.RunWraps` | include/coplus/fast_queue.h:248-275 | a 32-bit and an unbounded run with the same steps correspond, as long as no call about to check lags 2^31 behind |
| `LocalQueueWrap.WrappedRunUnwraps` | include/coplus/fast_queue.h:248-275 | for every 32-bit run the unbounded run with the same steps exists and corresponds, up to the first state in which a call lags 2^31 behind, if any |
| `ChunkStack.StepKeeps` | include/coplus/fast_queue.h:63-81 | every atomic step of every push keeps the invariant |
| `ChunkStack.EveryRunKeepsInv` | include/coplus/fast_queue.h:49-81 | in every interleaving of any number of pushes |
| `ChunkStack.CellsApart` | include/coplus/fast_queue.h:66-67 | different tokens are different (chunk, offset) cells |
| `ChunkStack.NothingIsUndone` | include/coplus/fast_queue.h:69-80 | a chunk pointer once installed never changes, a returned call stays returned |
| `ChunkStack.PushedItemIsFound` | include/coplus/fast_queue.h:49-81 | once push has returned a token, every later get of it finds the item |
| `ChunkStack.RacersShareTheChunk` | include/coplus/fast_queue.h:69-79 | pushers racing for a chunk write into the one installed, each into its own cell |
| `ChunkStack.NoCallIsStuck` | include/coplus/fast_queue.h:63-81 | a push is refused if and only if its slot is beyond the maximum; any other can always go on |
| `SlowQueue.Queue.Pop` | include/coplus/fast_queue.h:179-191 | fails exactly when empty; else the oldest item leaves and the rest keep their order |
| `SlowQueue.Queue.Push` | include/coplus/fast_queue.h:192-210 | fails exactly when full; else appends, or rotates when it fills the ring from slot 0 |
| `SlowQueue.Queue.Size` | include/coplus/fast_queue.h:211-217 | the exact number of items under the head == tail encoding |
| `SlowQueue.PushIntoRing` | include/coplus/fast_queue.h:204-208 | the ring after a write at the tail, in all wrap-around cases |
| `SlowQueue.PopFromRing` | include/coplus/fast_queue.h:184-189 | the ring after moving the head, in all wrap-around cases |
| `SlowQueue.EveryRunConserves` | include/coplus/fast_queue.h:179-210 | over every run, what was accepted is what came out and what is held, as bags |
| `SlowQueue.FifoUnlessFilledFromZero` | include/coplus/fast_queue.h:204-209 | a run of distinct items is first-in first-out if and only if no push filled the ring while the head was at slot 0 |
| `SlowQueue.FillingIsOutOfOrder` | include/coplus/fast_queue.h:192-210 | a ring of any size that is filled from the start does not deliver in order |
| `SlowQueue.FillingPutsOldestLast` | include/coplus/fast_queue.h:204-208 | a push that fills the ring from slot 0 puts exactly the oldest item behind all others |
| `Handles.StepKeepsUnlessReclaimed` | include/coplus/fast_queue.h:342-403 | a step keeps one producer per queue if and only if it is not a transfer that gives up and falls back on a token meanwhile free or taken |
| `Handles.EveryRunIsDisciplined` | include/coplus/fast_queue.h:342-403 | in every run in which no queue creation has failed, no token is held twice, held and free, or free twice, even when the free list drops tokens |
| `Handles.OnePushPerQueue` | include/coplus/fast_queue.h:351-381 | in such a run no two handles are inside a push on the same local queue, which is what that queue requires of its producers |
| `Handles.TokenComesBack` | include/coplus/fast_queue.h:369-388 | a token given back, by a full handle or one that ends, is free afterwards unless 50 are free already |
| `Handles.PushHoldsQueue` | include/coplus/fast_queue.h:351-354 | while a handle is inside a push it can neither give its queue back nor end |
| `Handles.NewHandleTakesToken` | include/coplus/fast_queue.h:342-345 | a new handle takes a free token if there is one |
| `Handles.NewHandleAlone` | include/coplus/fast_queue.h:342-350 | else it asks nine times for one and up to nine times for a new queue, of which there are 100, and then has none |
| `Handles.ExhaustionBreaks` | include/coplus/fast_queue.h:367-381 | once the queue list is exhausted, from every state with a handle in use some run breaks that |
| `Handles.BreakIsReached` | include/coplus/fast_queue.h:342-403 | a run from the start breaks that |
| `FastQueue.FastLocalQueue.Push` | include/coplus/fast_queue.h:248-260 | without overlap, with 32-bit counters: fails exactly when full, else appends |
| `FastQueue.FastLocalQueue.Pop` | include/coplus/fast_queue.h:261-275 | fails exactly when empty, else the oldest leaves |
| `FastQueue.FastLocalQueue.Size` | include/coplus/fast_queue.h:276-277 | the number of items |
| `FastQueue.FastQueue.PopHard` | include/coplus/fast_queue.h:423-447 | from every start, fails exactly if all local queues are empty; else takes the oldest item of the nearest non-empty queue from the start down or, if none is there, of the nearest above, and all else stays |
| `FastQueue.FastQueue.ElementCount` | include/coplus/fast_queue.h:317-332 | the size of the bag of all items |
| `FastQueue.FastQueue.CreateQueue` | include/coplus/fast_queue.h:449-454 | refused exactly when the list holds 100 queues; else a new empty queue at the next token, all others untouched |
| `FastQueue.ProducerHandle.constructor` | include/coplus/fast_queue.h:342-350 | a handle gets a queue from the free list if possible, else a new one, and none exactly when neither exists |
| `FastQueue.FastQueue.TakeToken` | include/coplus/fast_queue.h:391-392 | the first token of the free list, if any, leaves it; no item changes |
| `FastQueue.ProducerHandle.Apply` | include/coplus/fast_queue.h:390-396 | takes the first token of the free list if there is one and leaves the rest; no item changes |
| `FastQueue.ProducerHandle.Preempt` | include/coplus/fast_queue.h:397-403 | a new queue for the handle if there is room; else handle and queues stay as they are |
| `FastQueue.ProducerHandle.Push` | include/coplus/fast_queue.h:351-354 | fails exactly when the handle has no queue or its queue is full |
| `FastQueue.ProducerHandle.PushHard` | include/coplus/fast_queue.h:355-382 | adds the item last to exactly one queue, the handle's own if that is not full, else a new one; fails, changing no item, exactly when the own one is full or missing and no new one can be made; and what it does to the free list |
| `FastQueue.ProducerHandle.Transfer` | include/coplus/fast_queue.h:369-381 | a full queue's token goes to the free list; a new queue holds just the item, or, without room, the handle stays with the full one and nothing is added |
| `FastQueue.ProducerHandle.Destroy` | include/coplus/fast_queue.h:383-388 | the token goes to the free list, and no item changes |
| `FastQueue.PushAddsOnce` | include/coplus/fast_queue.h:355-382 | a push adds the item to the bag once |
| `FastQueue.PopTakesOnce` | include/coplus/fast_queue.h:423-447 | a pop removes it once |
| `FastQueue.EveryRunIsABag` | include/coplus/fast_queue.h:355-447 | over every run, what entered is what left and what is held |
| `FastQueue.EveryRunIsLocallyFifo` | include/coplus/fast_queue.h:299-302 | over every run, items of one local queue leave in the order they entered |
| `Scheduler.StepKeeps` | include/coplus/thread_pool.h:36-68 | every step of go, yield, await(function), notify and the worker's dispatch keeps the invariant |
| `Scheduler.EveryRunKeepsInv` | include/coplus/thread_pool.h:36-68 | for any number of tasks and workers and any interleaving |
| `Scheduler.ExactlyOnePlace` | include/coplus/thread_pool.h:36-68 | an unfinished task is in exactly one place: ready once, running on one worker, held mid-dispatch, parked behind one trigger, or lost to an overflow; a finished one is nowhere |
| `Scheduler.ResumesAfterReturn` | include/coplus/coroutine.h:22-54 | a parent that resumes from an await does so after the function returned and was put back exactly once |
| `Scheduler.FiberReturnsToItsWorker` | src/fiber_port.cc:22-31 | whenever a task's fiber runs on a worker, leaving it returns to that worker, and no other worker runs that fiber |
| `Scheduler.StatusIsOfLastSegment` | include/coplus/fiber_task.h:48-60 | the status a worker dispatches on is Finished, Ready or Waiting exactly as the last segment of that task's fiber returned, yielded or awaited |
| `Scheduler.NoWorkerIsStuck` | include/coplus/thread_pool.h:36-68 | a worker that is not fetching can always take a step, and one that is can whenever a task is ready |
| `Scheduler.NotifyFinds` | src/coroutine.cc:30-49 | what notify finds is one waiter: the parked parent, or an id the wait queue refused |
| `Scheduler.NoneWaits` | include/coplus/thread_pool.h:51-65 | at rest without an overflow every task is finished, by descent along who waits for whom |
| `Scheduler.AllFinishUnlessWaitQueueOverflows` | include/coplus/thread_pool.h:31-66 | at rest every task is finished if and only if at most 1000 awaits have used the wait queue |
| `Scheduler.OverflowIsReached` | include/coplus/thread_pool.h:31-66 | with any number of workers a run comes to rest with an unfinished task, after 1001 awaits |
| `Channel.StepKeeps` | include/coplus/channel.h:39-91 | every step of senders, receivers and scheduler, spurious wake-ups included, keeps sent = received ++ buffered, the capacity, mutual exclusion and who received what |
| `Channel.EveryRunIsSafe` | include/coplus/channel.h:39-91 | in every state of every run, for any capacity |
| `Channel.GrantIsGood` | include/coplus/channel.h:138-163 | a call that goes on never takes from an empty buffer, never overfills it or overwrites an unreceived value, and is alone in its critical section |
| `Channel.CheckWithBuffer` | include/coplus/channel.h:65-91 | with a buffer, a check lets a send go on exactly if fewer items than the capacity are under way, and a receive exactly if some item is; else the call sleeps |
| `Channel.CheckWithoutBuffer` | include/coplus/channel.h:138-163 | without one, a first check never lets a call go on, and a later one exactly if no value is waiting, for a send, or one is, for a receive |
| `Channel.EveryRunWakesFirst` | include/coplus/channel.h:138-163 | without one, in every run, a send or receive that goes on or has finished has checked at least twice and slept in between |
| `Channel.EveryAlertIsInTime` | include/coplus/channel.h:39-62 | in every run a sleeping call is alerted only when what it waits for holds, or, without a buffer, in a pair with one of the other kind |
| `Channel.AlertLetsGoOn` | include/coplus/channel.h:39-91 | with a buffer, the first call in line is alerted if what it waits for holds, and goes on if no other gets in between |
| `Channel.SendMeetsReceive` | include/coplus/channel.h:114-163 | without one, a send and a receive that sleep can meet: the receive gets the value of the send |
| `Channel.StrandedForGood` | include/coplus/channel.h:42-60 | a sleeping call whose alert is spent sleeps on, whatever the others do |
| `Channel.AlertDecides` | include/coplus/channel.h:39-91 | a sleeping call, of either kind and for any capacity, can still be woken if and only if its alert is still queued |
| `Channel.WakeUpsCanBeLost` | include/coplus/channel.h:39-91 | for every capacity, a run from the start strands a send for which there is room |
| `Framing.PickleMessage` | include/coplus/protocol.h:31-38 | blanks patched by copies give head, type, length, raw type, request and tail |
| `Framing.PickleList` | include/coplus/protocol.h:42-58 | the list form frames the printed table; an empty header gives no frame |
| `Framing.FrameFields` | include/coplus/protocol.h:31-38 | what stands where in a frame: head, type, length field decoded to all but head and tail, raw type, request, tail |
| `Framing.ContentIs` | include/coplus/protocol.h:84-105 | the content of a body is what stands behind its first six bytes, unless that is a list that does not parse |
| `Framing.NoTermInPrefix` | include/coplus/protocol.h:20-22 | the tail cannot begin in the ten bytes before the request |
| `Framing.NoStraddle` | include/coplus/protocol.h:22-22 | the tail has no self-overlap: it cannot begin in the request and end in the tail |
| `Framing.TermIsFound` | test/server.cc:59-67 | the tail first found is the frame's own if and only if the request does not contain it |
| `Framing.FrameIsParsed` | test/server.cc:68-101 | parsing a buffer that starts with a frame gives the request up to the first tail bytes in it, and consumes up to there |
| `Framing.ScanOneFrame` | test/server.cc:146-152 | one frame in front of anything: its request is dispatched whole and the scan goes on behind it if and only if the request does not contain the tail bytes |
| `Framing.ScanInvertsFrames` | test/server.cc:146-152 | scanning the concatenation of frames gives exactly the requests in order if and only if none contains the tail bytes |
| `Framing.StrayBytesRepeat` | test/server.cc:91-101 | bytes without head and tail dispatch the previous content again, once for every three bytes begun |
| `Framing.HeadAloneIsPending` | test/server.cc:82-101 | a head without a tail dispatches nothing |
| `Framing.TailBeforeHead` | test/server.cc:70-101 | with a tail in front of the head, the content is all that follows the head |
| `Reassembly.Receiver.Parse` | test/server.cc:59-101 | one call of parse in place: its content, what it consumes and what is pending afterwards |
| `Reassembly.Receiver.Receive` | test/server.cc:141-152 | the loop over one buffer computes ScanWith from the memory before to the memory after |
| `Reassembly.WithoutPending` | test/server.cc:146-152 | as long as nothing is pending, what is dispatched is Scan, so all that is proved of Scan holds of the loop |
| `Reassembly.FramesFirst` | test/server.cc:146-152 | whole frames in front of anything are dispatched and leave nothing pending |
| `Reassembly.PartsGather` | test/server.cc:88-99 | buffers without tail bytes are added to what is pending, to the last byte |
| `Reassembly.TwoPartsMeetExactly` | test/server.cc:59-101 | a frame in two parts comes back whole if and only if the cut lies behind the head and before the fourth byte after it, or the request is empty and the cut lies between head and tail |
| `Reassembly.CutStreamIsWhole` | test/server.cc:59-101 | a stream of frames cut in such a place is dispatched in order and leaves nothing pending |
| `Reassembly.ManyPartsMeetExactly` | test/server.cc:59-101 | the same for any number of parts of which the first has the head: the tail must come in one piece, too |
| `Framing.SenderEndsAt` | include/coplus/protocol.h:125-125 | the sender found is the whole address if and only if that has no two adjacent colons and does not end in one |
| `Framing.SenderRoundTrips` | include/coplus/protocol.h:39-41 | then sender and message, up to its first NUL, come back from a sender message; both come back whole if and only if the message has no NUL either |
| `ListCodec.SplitInto` | include/coplus/util.h:57-70 | the loop appends exactly the maximal runs without the delimiter, and returns their number |
| `ListCodec.PartsAreClean` | include/coplus/util.h:57-70 | parts are non-empty, free of the delimiter and made of bytes of the text |
| `ListCodec.SplitInvertsJoin` | include/coplus/protocol.h:44-56 | splitting by commas inverts joining, for non-empty fields without delimiters |
| `ListCodec.ParseInvertsRows` | include/coplus/protocol.h:100-105 | parsing the printed rows gives back the entries |
| `ListCodec.ParsedIsClean` | include/coplus/protocol.h:88-105 | whatever the text, a table that parses has clean fields and whole rows |
| `ListCodec.ParseFailsExactly` | include/coplus/protocol.h:88-105 | a list is broken if and only if it has no line or no header field, or some row has not as many fields as the header |
| `ListCodec.CleanTableParses` | include/coplus/protocol.h:88-105 | a table with clean fields and whole rows comes back from its text |
| `ListCodec.ListRoundTrips` | include/coplus/protocol.h:42-58 | a table round-trips if and only if its fields are non-empty and free of delimiters and its rows whole |
| `TableLayout.PrintList` | include/coplus/protocol.h:44-56 | the nested loops print the table |
| `TableLayout.ReadTable` | include/coplus/protocol.h:88-106 | the parsing loops compute Parse and, in the same pass, the layout: each column two wider than its widest text |
| `TableLayout.WidestIsLeast` | include/coplus/protocol.h:97-106 | a column's width is the least bound on its header and entries |
| `TableLayout.ColumnIsTwoWider` | include/coplus/protocol.h:97-106 | a column is two wider than its widest text, which is its header or one of its entries |
| `TableLayout.PadsSum` | include/coplus/protocol.h:110-112 | the two truncated real paddings always sum to the slack |
| `TableLayout.BarsAlign` | include/coplus/protocol.h:108-122 | bar j stands at the same offset in every row |
| `TableLayout.LayoutFits` | include/coplus/protocol.h:104-106 | header and every row fit the layout |
| `TableLayout.AppendCells` | include/coplus/protocol.h:114-122 | the loop with column index i modulo the width appends the row's cells in its columns |
| `TableLayout.CollectLines` | include/coplus/protocol.h:107-123 | the loops collect the lines of header and rows |
| `TableLayout.LineShows` | include/coplus/protocol.h:108-122 | what such a line shows, byte by byte: each bar at its offset, half the slack in blanks, the text, blanks to the next bar |
| `TableLayout.PrintRow` | include/coplus/protocol.h:114-122 | the line printed shows each text of the row in its column, byte by byte |
| `TableLayout.TableIsRectangular` | include/coplus/protocol.h:107-123 | every line of a printed table has the same width |
| `TableLayout.PrintTable` | include/coplus/protocol.h:107-123 | the lines show header and rows, byte by byte, and all have the same width |

## Left out

- ArenaObjects.EveryRunKeepsBlocksApart: says nothing from the first wild access on; objects other than the last must not be freed from a full run; and no 60-page request may have to grow the heap.
- ArenaObjects.UntangledRunIsNeverWild: assumes that no run is moved to the front of a list with other runs in it. The source does not guarantee this; `ArenaTangle.RequestIsServedFromChunk` is a run in which it happens.
- BinLists.RelinkKeepsPairsOnly: moving the last run of a list also writes to handle 0, whose page holds the bits of `is_head_` for pages 160640 to 160671; the model keeps handle 0 apart, so it speaks of arenas that have not grown so far.
- Links of small-object runs and of free runs lie in the same headers; the model keeps the former in `ArenaObjects.State` and the latter in `Arena.Arena`, whose span operations write to headers of free and fresh runs only.
- Arena.Arena.MallocBig: requests of more than 60 pages are excluded, because the source then reads beyond `span_list_`; the loop at line 181 also reads one element beyond it before its bound is tested, which the model does not do. Where the source throws bad_alloc the model returns nothing.
- Arena.Arena.FreeChunk: requires a chunk in use, as the source does of its callers.
- SmallObjects.EveryRunStaysInOrder: objects other than the last must not be freed from a full run; `SmallObjects.FreeKeepsUnlessFull` shows that this is exactly what is needed.
- `FastQueue::pop`, whose quadratic probe compares an unreduced index and has no guarantee.
- `PushOnlyFastStack::get` with a token not below the maximum.
- FastQueue.FastQueue.PopHard: the random start is an arbitrary parameter; no queue creation may have failed, because `get(100)` then reads beyond the table of chunks.
- FastQueue.FastQueue.ElementCount: the same.
- SlowQueue.Queue.constructor: requires a capacity of at least 2; with 1 the cursors leave the ring after the first push, and the only queue built in the library has 50.
- LocalQueueWrap.RunWraps: requires that no call stalls between its two atomic operations while 2^31 items pass, as the source's own comment does.
- Scheduler.EveryRunKeepsInv: pushes into the ready queue succeed, and a trigger's mutex is not modelled, which only adds interleavings.
- `await(float)` and `await(Trigger)` with an outside notifier: whether they wake depends on the caller.
- Channel fairness: that a call which can be woken is woken depends on the scheduler thread; closing a channel.
- Framing.ScanInvertsFrames: requests are shorter than 2^31 bytes.
- Reassembly.ManyPartsMeetExactly: the first part has the head; a cut inside the head is decided for two parts only, by `Reassembly.TwoPartsMeetExactly`.
- ListCodec.ListRoundTrips: a list text without any line counts as broken; the source reads the first element of an empty vector.
- `format_message`'s type and length output, which would only add easy members.
- Operating-system calls, sockets, timers, logging, random numbers, `level_hash.h`, and starting, resizing and closing thread pools.
- C++ weak memory: all interleavings are sequentially consistent.
