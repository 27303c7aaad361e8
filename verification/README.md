# A verified model of Aislinn

Aislinn is an explicit-state model checker for MPI programs. It runs the processes of a program under an instrumented
virtual machine that can save, restore, hash and ship whole process images, and it explores every order in which messages
can be matched. This project models the data structures and protocols that make the exploration possible, in the form in
which the program has them, and proves what they are for.

| file | what it models |
|---|---|
| `PageMemory.dfy`, `MemoryTypes.dfy`, `PageDigest.dfy`, `Arithmetic.dfy` | the copy-on-write memory of a client: pages and permission arrays with reference counts, the page cache, saved states, page hashes |
| `BlockList.dfy` | the first-fit allocator of the client heap |
| `Transport.dfy`, `StateTransfer.dfy` | the transfer of a saved state to another client over a socket, and its restoration there |
| `Requests.dfy`, `Matching.dfy`, `GlobalContext.dfy` | requests, the search for matches, the matching loop of fast expansion |
| `Buffers.dfy` | message buffers and their reference counts over all live global states |
| `Ndsync.dfy`, `NdsyncLookups.dfy`, `Countdown.dfy`, `NdsyncChecker.dfy`, `NdsyncDependencies.dfy`, `NdsyncRenaming.dfy`, `NdsyncCovering.dfy`, `NdsyncDropping.dfy` | deadlock analysis for standard sends and collective calls that may or may not synchronise |
| `StateSpace.dfy`, `Outputs.dfy` | searches of the state space: arcs that close cycles, outputs over all paths |
| `Exploration.dfy` | several workers that explore a state space together |
| `Intervals.dfy`, `MemoryLocks.dfy` | memory of pending non-blocking requests that is read-only for the program |
| `Datatypes.dfy` | packing and unpacking of derived datatypes (section 4.1 of MPI-3.1) |
| `Collectives.dfy` | which collective calls meet, how long an operation lives, who may complete when |

## How to read it

Objects that the program updates in place are classes (`MemorySpace`, `Page`, `VA`, `Heap`, `SocketReadBuffer`,
`GlobalContext`, `BufferManager`, `Marking`, `NdsyncChecker`, `Generator`, `Worker`, `Intervals`, `LockedMemory`,
`Controller`, `GlobalState`, `CollectiveOperation`); their methods follow the loops and branches of the program, and each
method states its new state by a function or relation of the old one. What the program promises is proved about these
functions and relations.

The central notions of `PageMemory`: `Bits()` are the permissions of the whole address space, read off the current pages (an
absent page has none); `View()` is what can be observed of the client, a permission for every address and a byte for every
readable one; `SavedView(id)` is the same for a saved state, read off the pages that the state holds; `ImagesKept()` says
that a step touches nothing that a saved state stores; `Seen()` is all of it, together with the blocks of the heap, and
`Effect` says what each command does to it; `Dirty()` are the bases of the pages that may be written to. `Valid()` holds the
ownership counts (`VasOk`: an array counts the pages that use it, and one more when it is one of the four shared arrays;
`PagesOk`: a page counts the states that hold it, and one more when it is current), the cache invariant (`CacheOk`: distinct
bases, at most 12 entries, each the current page of its base) and the hash invariant (`ContentOk`: a page marked as hashed
stores the hash of its present content). Every public step keeps `Valid()`.

In `NdsyncDependencies` the marks of deadlock analysis are traced: `Place` is where a mark is kept, `At` says that it is
there, and `Brings`, `Moves` and `Stays` say for each single step where marks come from and what keeps them.

MD5 is an arbitrary function of a byte sequence. The successor function of the exploration is arbitrary; its hash is
injective. Dictionaries that Python walks in an unspecified order are walked in an arbitrary one.

## Where the program departs from the obvious claim

* `BlockList`: freed blocks are not always coalesced. Growing the heap to an aligned address can leave a free gap right
  behind a free block. `Heap.Alloc` says that this happens exactly under `TailGap`, and that it never happens for alignments
  that divide 8; `TailGapHappens` is an instance.
* `Matching`: the receives of a process can be overtaken. `DeterministicOvertakes` and `PossibleOvertakes` say exactly when: a
  receive for any tag from a named source is passed the message although an earlier receive from any source asks for just
  its tag; `OvertakingHappens` is an instance.
* `Transport`: permissions of unmapped machine pages do not travel. `PageRoundTrip` says that the permissions arrive if and only
  if unmapped machine pages have none. `UnmapKeepsExactly` says which unmappings lead to other pages: those of ranges that end
  inside a machine page, with permissions behind the range. `PermissionsGetLost` is an instance.
* `PageDigest`: a page that is read-only throughout is hashed like one that is defined throughout. `DigestIdentifies` says that
  this is the only confusion; `LockedPageDigest` is the instance.
* `NdsyncChecker`: the walk starts in the successor of the first node when the first arc has no events. If an arc leads back
  to that start, the start is processed twice, and nodes behind it may be processed before markings have come to them:
  `ReturnOvertakes` is an instance. `OnceAndAfter` says that this happens exactly when `StartOk` does not hold. `Run` and
  `NdsyncCheck` model the walk on any graph; `StartOk` is the condition only for finding every deadlock.
* `NdsyncCovering`: the test that drops a marking because another one covers it compares neither the marks of processes nor
  those of open operations, because its `continue` statements only continue the loops around them, and it may map a pending
  send to another one. `NdsyncDropping.StuckIsDropped` is an instance in which it drops a marking with no way out that an
  ordinary run leads to. `AcceptedIsRenaming` is the exact condition under which the dropped marking is the other one with
  renamed marks, and then, says `CoveredLosesNothing`, nothing is lost. That nothing is lost (`LosesNothing`) is a condition
  of `Run` and `NdsyncCheck` only for finding every deadlock.
* `NdsyncCovering`: the test can fail. It asserts that both markings have the same number of pending sends, but a removal at a
  branching gives pending sends up, and an arc alone does not; where two such ways meet, the assertion ends the whole check.
  `IsCoveredBy` says exactly when it fails, `AddMarking`, `Run` and `NdsyncCheck` carry the failure as `Broken`, and
  `NdsyncDropping.DiamondBreaks` is an instance.
* `Exploration`: the inner loop of `start_next_in_queue` takes tasks without a test for an empty queue, and raises when there
  is none. `Generator.StartNextInQueue` reports it as `raised`, with the exact condition on the queue and the nodes before the
  call for a worker alone; no worker raises when every planned action takes time. `Generator.Run` returns whether anything
  raised, and goes on as if the queue had been tested. For a worker alone it says exactly when: if the last task, in the order
  that the program and the search determine (`OrderIsUnique`), takes no time. `DepthFirstRaises` is an instance.
* `Outputs`: an endless output is not always noticed. The search looks at the arcs of its path when it comes back to a node
  of the path, so a cycle through a finished node is passed over even if one of its arcs writes: `WritingCycleIsMissed` is an
  instance. `TreeReduce` says that a cycle is reported exactly if the search comes to one on which the path writes (`Finds`),
  that this is so for every cycle if everything on cycles writes, and that whatever cycle is not reported has an arc that does
  not write.
* `PageMemory`: the check for readability accepts undefined bytes (its mask has both bits), and an empty range in the middle
  of an absent page is refused; `CheckAddressRangePerms` says so. RESTORE and FREE of an unknown state report an error and
  then dereference a null pointer; here they return `false`.

## Model

| member | source | states |
|---|---|---|
| PageMemory.MemorySpace.SaveRunRestore | src/vgtool/an_main.c:1382-1450 | Snapshot exactness: after saving, any list of client stores and loads, controller writes, permission changes, locks, saves, restores, frees of other states, states pulled from other clients, hashes and heap changes, restoring gives back every permission, every readable byte and the allocation list; each command has its effect on the way, see `Step` |
| PageMemory.MemorySpace.Step | src/vgtool/an_main.c:2458-2786 | Refinement of a memory without pages: a command does to what can be seen (permissions, readable bytes, blocks, saved states) just what `Effect` says, whatever pages, arrays, cache and counts are behind it; a held state that it does not free stores what it stored |
| PageMemory.MemorySpace.SaveState | src/vgtool/an_main.c:1382-1400 | The new state shows exactly what the client shows now, with the same allocation list; other states and the client are as before |
| PageMemory.MemorySpace.SavePage | src/vgtool/an_main.c:1388-1396 | One turn of the saving loop: the state takes hold of the current page, whose readable bytes are stored first if nobody else holds it; no state loses anything |
| PageMemory.MemorySpace.SavePageContent | src/vgtool/an_main.c:1257-1288 | Afterwards the stored bytes agree with the memory wherever the page is readable, or nothing is stored and nothing is readable |
| PageMemory.MemorySpace.RestoreState | src/vgtool/an_main.c:1413-1450 | An unknown state is refused; otherwise the client shows exactly what the state stores, its allocation list is back, and every saved state stays as it is |
| PageMemory.MemorySpace.RestoreTurn | src/vgtool/an_main.c:1420-1444 | The in-step walk over current pages and pages of the image stays aligned, so its assertions hold: up to here the current pages are those of the image, or are empty |
| PageMemory.MemorySpace.RestorePageContent | src/vgtool/an_main.c:1317-1380 | The stored readable bytes are back in the memory and no byte of another page changes; the assertion that bytes are stored holds, because only a page without permissions is held without them |
| PageMemory.MemorySpace.FreeState | src/vgtool/an_main.c:1402-1411 | Frees one state only; what the client and the other states show is unchanged |
| PageMemory.MemorySpace.FreePageIfUnused | src/vgtool/an_main.c:764-776 | A page that lost its last owner is freed, and its permission array with it when that lost its last owner; all counts stay exact |
| PageMemory.MemorySpace.AllStatesFreed | src/aislinn/mpi/worker.py:424-428 | With all states freed the page counter is the number of current pages, and at most one permission array per page remains besides the four shared ones |
| PageMemory.MemorySpace.InstalledValid | src/vgtool/an_main.c:711-762 | Making a new page current beside a shared one keeps the exact ownership counts, contents, hashes and everything that saved states store |
| PageMemory.MemorySpace.PrepareForWriteData | src/vgtool/an_main.c:809-822 | The current page of the base is one that no state holds and that is not marked as hashed; nothing observable changes |
| PageMemory.MemorySpace.PrepareForWriteVa | src/vgtool/an_main.c:837-858 | In addition the permission array has this page as its only owner, so that writing to it changes no other page |
| PageMemory.MemorySpace.SetUniformVa | src/vgtool/an_main.c:824-835 | The page gets the shared array of one permission, and the array that it leaves is freed when unused |
| PageMemory.MemorySpace.GetPageOrNull | src/vgtool/an_main.c:862-891 | Cache refinement: the cached lookup returns exactly what the ordered map alone returns, and what it returns is cached |
| PageMemory.MemorySpace.GetPage | src/vgtool/an_main.c:893-926 | The same for the lookup that creates an absent page, which is empty and changes nothing observable |
| PageMemory.MemorySpace.FindInCache | src/vgtool/an_main.c:862-880 | A hit is the current page of its base and moves to the front; a miss leaves the cache alone; entries stay distinct and current |
| PageMemory.MemorySpace.AddToPageCache | src/vgtool/an_main.c:657-669 | Appends while there is room and otherwise drops the last entry and puts the page first; entries stay distinct and current |
| PageMemory.MemorySpace.PageUpdate | src/vgtool/an_main.c:795-807 | The page takes the place of the page with its base in the map and in the cache |
| PageMemory.MemorySpace.SetAddressRangePerms | src/vgtool/an_main.c:1101-1164 | Exactly the addresses of the range get the permission, across page borders; saved states keep theirs |
| PageMemory.MemorySpace.CheckAddressRangePerms | src/vgtool/an_main.c:931-1026 | Succeeds exactly when every address of the range meets the mask, and otherwise returns the first that does not; the one exception, an empty range in an absent page, is stated |
| PageMemory.MemorySpace.FillUndefinedMemory | src/vgtool/an_main.c:1028-1053 | Exactly the undefined bytes of the range become 0 |
| PageMemory.MemorySpace.TraceWrite | src/vgtool/an_main.c:1585-1626 | Accepts a store exactly when every byte of the range is writable, makes the range defined, and leaves it in pages that may be written to; a refused store has made defined exactly what it has before the page of the first byte that is not writable |
| PageMemory.MemorySpace.ClientWrite | src/vgtool/an_main.c:1585-1626 | An accepted store changes exactly the range, in the memory and in the permissions, and nothing that a saved state stores; a refused one stores nothing |
| PageMemory.MemorySpace.ExternWrite | src/vgtool/an_main.c:1674-1681 | With a check, refused exactly when some byte is not writable, and then without effect; otherwise the range is stored and defined |
| PageMemory.MemorySpace.PrepareForWrite | src/vgtool/an_main.c:1567-1578 | Every page of the range may be written to without touching a saved state |
| PageMemory.MemorySpace.Lock | src/vgtool/an_main.c:2771-2778 | The range is read-only, its undefined bytes are 0, all other bytes and permissions are as before |
| PageMemory.MemorySpace.Unlock | src/vgtool/an_main.c:2780-2786 | Exactly the range becomes defined |
| PageMemory.MemorySpace.PageHash | src/vgtool/an_main.c:1186-1255 | A remembered hash is used as it stands and is always the hash of the present content: what is fed are the readable bytes in ascending order, and then the permissions unless all bytes are readable |
| PageMemory.MemorySpace.FeedReadable | src/vgtool/an_main.c:1209-1239 | The loop over runs of readable bytes, none across a machine page, feeds exactly the readable bytes in order |
| PageMemory.MemorySpace.MemspaceHash | src/vgtool/an_main.c:1452-1463 | The hash from remembered page hashes is a function of what can be observed: one hash for every page with something readable, in ascending order, of the readable bytes and permissions that are seen there |
| PageMemory.HashIdentifies | src/vgtool/an_main.c:1452-1463 | For an injective MD5 two clients have the same hash if and only if they have equally many pages with something readable and the `k`-th ones of both have the same permissions and readable bytes, or are readable throughout with the same bytes |
| PageMemory.MemorySpace.ViewContribution | src/vgtool/an_main.c:1186-1255 | What a page contributes depends on its permissions and readable bytes only, not on which array stores them or whether the page exists |
| PageDigest.DigestIdentifies | src/vgtool/an_main.c:1196-1250 | Two pages are fed alike to MD5 if and only if permissions and readable bytes agree, or both are readable throughout with the same bytes |
| PageDigest.DigestIs | src/vgtool/an_main.c:1196-1250 | What MD5 is fed with: the bytes at the readable places in ascending order, then all permission codes unless every byte is readable |
| PageDigest.ReadableAgree | src/vgtool/an_main.c:1209-1239 | The readable bytes are the same exactly when the contents agree wherever they are readable |
| PageDigest.LockedPageDigest | src/vgtool/an_main.c:1196-1221 | A page that is read-only throughout is fed like the same page defined throughout, although the permissions differ |
| BlockList.Heap.Alloc | src/vgtool/an_main.c:528-609 | First fit: the block is aligned, big enough for request and redzone, apart from all live blocks, at the first free block that fits or at the end; fails exactly when nothing fits and the heap would reach its limit; no two free blocks become neighbours except exactly under `TailGap` |
| BlockList.Heap.FindFit | src/vgtool/an_main.c:541-556 | The first free block that fits, padding included, or END when there is none |
| BlockList.FitsMeans | src/vgtool/an_main.c:541-556 | A free block fits if and only if the room is in it from some aligned address on |
| BlockList.Need | src/vgtool/an_main.c:536-539 | The room for a request: the least positive multiple of the word size that holds it with its redzone |
| BlockList.Heap.Grow | src/vgtool/an_main.c:580-608 | The heap grows by padding and block, unless it would reach its limit |
| BlockList.Heap.FreeBlock | src/vgtool/an_main.c:629-655 | Exactly the block at the address is released and its size returned; an address that no live block has is refused; neighbouring free blocks are joined |
| BlockList.CoalescedNoAdjacentFree | src/vgtool/an_main.c:642-654 | Joining with both neighbours leaves no two free blocks side by side |
| BlockList.LiveDisjoint | src/vgtool/an_main.c:528-655 | Live blocks never overlap and lie inside the heap |
| BlockList.AllFreed | src/vgtool/an_main.c:629-655 | When everything is freed, no two free blocks are neighbours exactly if a single free block, or none, precedes END |
| BlockList.TailGapHappens | src/vgtool/an_main.c:584-590 | An instance where growing the heap to an aligned address leaves two free neighbours |
| Transport.Transfer | src/vgtool/an_main.c:2264-2455 | Pushing and pulling a state over any splitting of the byte stream reproduces what `PageRoundTrip` says of every page, the allocation list and the context |
| Transport.PageRoundTrip | src/vgtool/an_main.c:2188-2413 | Base, flags and the bytes of readable RW pages arrive; the permissions arrive if and only if unmapped machine pages have none |
| Transport.TransferredIsSame | src/vgtool/an_main.c:2188-2413 | Every observable part of a transferred page is what it was |
| Transport.UnmapKeepsExactly | src/vgtool/an_main.c:3024-3030 | Unmapping a range keeps that unmapped machine pages have no permissions if and only if the bytes behind the range, in the machine page where it ends, had none |
| Transport.PermissionsGetLost | src/vgtool/an_main.c:2188-2262 | An instance of a page, made by unmapping one byte, whose permissions do not arrive |
| Transport.PushPage | src/vgtool/an_main.c:2188-2262 | The stream grows by header, permissions and bytes of the page, whatever was flushed in between |
| Transport.WhatTravels | src/vgtool/an_main.c:2200-2246 | Of an unmapped machine page nothing travels; another sends its permissions unless it is readable and writable with the same permission throughout, and its bytes if it is readable and writable and some byte can be read or the permissions differ |
| Transport.PageLength | src/vgtool/an_main.c:2188-2262 | Of a page travel exactly its header and these parts |
| Transport.PullPage | src/vgtool/an_main.c:2296-2413 | Reads exactly the bytes of one page and rebuilds it from them |
| Transport.PushState | src/vgtool/an_main.c:2264-2294 | The stream is the header, the allocation blocks and the pages in order |
| Transport.PullState | src/vgtool/an_main.c:2415-2455 | The allocation list, the context and every page are rebuilt from the stream |
| Transport.BlockRoundTrip | src/vgtool/an_main.c:2264-2294 | A block of the allocation list is recovered from its bytes |
| Transport.SocketWriteBuffer.Reserve | src/vgtool/an_main.c:2121-2140 | Room for the next chunk; what was written so far, sent or not, stays a prefix of the stream |
| Transport.SocketReadBuffer.Read | src/vgtool/an_main.c:2168-2186 | The next bytes of the stream, for any splitting into reads of the socket |
| PageMemory.MemorySpace.TraceRead | src/vgtool/an_main.c:1628-1664 | A load is refused exactly if its first byte is not accessible; if that byte is undefined the undefined bytes of the range become 0, and otherwise nothing changes; whether the load would go on behind its page is told exactly |
| PageMemory.MemorySpace.AdoptState | src/vgtool/an_main.c:2415-2455 | A state pulled from another client enters the table and shows exactly what its pages contain; the client memory and all other states stay as they are |
| PageMemory.MemorySpace.AdoptPage | src/vgtool/an_main.c:2296-2413 | A pulled page belongs to the new state alone, its base gets a page in this client too, and all ownership counts stay exact |
| StateTransfer.TransferAndRestore | src/vgtool/an_main.c:2836-2854 | A saved state that is pushed, pulled and restored in another client shows there every permission and every readable byte that was saved, with the same allocation list, and the other states of that client stay |
| StateTransfer.SameView | src/vgtool/an_main.c:2264-2455 | What arrives of the pages of a state contains, address by address, what the state shows |
| Ndsync.ClosureIsLeast | src/aislinn/mpi/ndsync.py:322-340 | The removed marks are the least set that has the given ones and every mark whose wait set lies inside |
| Ndsync.LeastIsUnique | src/aislinn/mpi/ndsync.py:322-340 | There is only one such set, so the order of the dictionary does not matter |
| Ndsync.ClosureInSteps | src/aislinn/mpi/ndsync.py:331-340 | Removing groups of marks one after the other takes along what removing them together does |
| Ndsync.Marking.RemoveMarksAndCleanup | src/aislinn/mpi/ndsync.py:331-340 | The cascading loop ends, and removes exactly the least closed set, in whatever order the table is walked; no mark waits for nothing afterwards |
| Ndsync.Marking.GetEventMarks | src/aislinn/mpi/ndsync.py:230-246 | The marks on which the event depends |
| Ndsync.Marking.AddCollective | src/aislinn/mpi/ndsync.py:348-370 | The call joins its operation; when all calls are there each waits for what any waits for, or all are settled |
| Ndsync.Marking.ProcessMatch | src/aislinn/mpi/ndsync.py:392-407 | A match settles a standard send or makes it wait for the receiver's marks, in every combination of types; who depends on what then is stated by `NdsyncDependencies.StepFollows` |
| Ndsync.Marking.ContinueRequest | src/aislinn/mpi/ndsync.py:408-426 | The process that learns that a request finished takes over its marks, and a send is forgotten only then |
| Ndsync.Marking.ProcessEvent | src/aislinn/mpi/ndsync.py:385-426 | The effect of one event is the meaning that the proofs below are about; what it makes whom depend on is stated by `NdsyncDependencies` |
| NdsyncDependencies.StepFollows | src/aislinn/mpi/ndsync.py:348-426 | Who depends on which mark after a call, a match, the news that a request finished, or a removal: exactly those who did before and kept it, those to whom it moved (both partners' marks to the receive and to a rendezvous or finished standard send, the marks of a finished request to its process, all marks of a complete operation to every call), and those to whom the step brings it |
| NdsyncDependencies.StepShape | src/aislinn/mpi/ndsync.py:348-426 | Which requests are open, finished or pending, and which operations are open, after each step |
| NdsyncDependencies.RunDependencies | src/aislinn/mpi/ndsync.py:385-448 | Over every run of events: somebody depends on a mark if and only if a chain of steps leads from the step that brought the mark to him, and the mark was not removed on the way |
| NdsyncDependencies.WayDependencies | src/aislinn/mpi/ndsync.py:106-144 | The same along every way of the walk, with the removals at its branchings |
| NdsyncDependencies.EventDepends | src/aislinn/mpi/ndsync.py:231-246 | The marks of an event: those of both requests of a match; those of the process of a call; those of the process and of the requests that it learns about, and the marks of its standard sends that are still pending |
| Ndsync.ProcessedInv | src/aislinn/mpi/ndsync.py:385-448 | Every event keeps: no terminate mark has an empty wait set, and every mark that occurs stands for a pending send, an open operation or a terminate mark |
| Ndsync.RunInv | src/aislinn/mpi/ndsync.py:385-448 | Hence it holds after every event of every run; with the removals at branchings see NdsyncChecker.InvAlong |
| Ndsync.FinalDeadlock | src/aislinn/mpi/ndsync.py:107-117 | At a final node with all sends and collective calls settled, every mark that a process depends on has a wait set, and wait sets remain exactly if some synchronisations wait for each other in a circle |
| NdsyncChecker.NdsyncCheck | src/aislinn/mpi/ndsync.py:58-76 | For every state space a reported deadlock is real: some way leads to a marking without a way out, blocked by exactly the reported marks, which at the end of a program hold a circle. The check breaks only if two markings come to one node that the covering test cannot compare. Unless it breaks or an arc leads back to a start behind the first node, the nodes have an order in which each comes once, after all sources of the arcs into it, and every node is processed with markings that stand for all that ways carry to it; and unless a deadlock is lost with a dropped marking, one is reported if and only if some way that closes no cycle leads to one |
| NdsyncChecker.NdsyncChecker.Run | src/aislinn/mpi/ndsync.py:58-76 | The walk on any graph: it ends without a deadlock, with a real one, or broken by two carried markings that cannot be compared. Without a deadlock the nodes are processed in the order of the countdown; along a plan every node is processed once and no markings are left, and exactly the deadlocks are raised when nothing is lost with dropped markings |
| NdsyncChecker.NdsyncChecker.ProcessNode | src/aislinn/mpi/ndsync.py:106-144 | On any graph: every marking goes on along every arc whose target still has a positive count, or one that covers it is held there, and nothing else comes; then the targets are counted down; raises a deadlock exactly if some marking has no way out, and breaks only with markings that cannot be compared |
| NdsyncChecker.NdsyncChecker.AddMarking | src/aislinn/mpi/ndsync.py:42-56 | Adds a marking to a node exactly if neither it nor one that covers it is there; breaks exactly if one that is there cannot be compared with it and none before covers it; nothing else changes |
| NdsyncChecker.FinalIsCarried | src/aislinn/mpi/ndsync.py:106-144 | Every marking that a node is processed with was carried to it by some way |
| NdsyncChecker.DeadlockIsFinal | src/aislinn/mpi/ndsync.py:42-56 | When nothing is lost with dropped markings, every deadlock that some way leads to is one of a marking that its node is processed with |
| NdsyncRenaming.RenamingClosure | src/aislinn/mpi/ndsync.py:322-340 | What is removed with a set of marks is the same under other names |
| NdsyncRenaming.RenamingProcessed | src/aislinn/mpi/ndsync.py:385-426 | Every event does the same to a marking with other names for its marks, provided its own new marks keep their names |
| NdsyncCovering.AlikeProcessed | src/aislinn/mpi/ndsync.py:348-370 | No event depends on the order of the open operations |
| NdsyncDropping.SameDeadlocks | src/aislinn/mpi/ndsync.py:42-56 | A marking and one that differs from it in names of marks and order of operations only have the same deadlocks on every way ahead, by the renamed marks |
| NdsyncCovering.BuildEquivalence | src/aislinn/base/utils.py:92-119 | Exactly the ways to map one list one-to-one to the other |
| NdsyncCovering.IsCoveredBy | src/aislinn/mpi/ndsync.py:248-315 | For any two markings of one state: fails in its assertion exactly if as many marks have wait sets and the numbers of pending sends differ, and in a look-up exactly if otherwise other sends are pending or an open operation is not open there; covered exactly if it does not fail and some mapping that pairs pending sends by request and open calls by process makes requests and wait sets agree |
| NdsyncCovering.AcceptedIsRenaming | src/aislinn/mpi/ndsync.py:248-315 | When the test is right: an accepted mapping is part of a renaming if and only if it is one-to-one and also makes the marks of processes, pending sends and open operations agree |
| NdsyncCovering.RenamedIsCovered | src/aislinn/mpi/ndsync.py:248-315 | The test knows a marking under other names: it answers that it is covered by every one that differs only in the names of marks and the order of operations, if the calls are still of the same processes |
| NdsyncDropping.CoveredLosesNothing | src/aislinn/mpi/ndsync.py:42-56 | A marking that is dropped for such a mapping takes no deadlock with it |
| NdsyncDropping.CoveringLosesNothing | src/aislinn/mpi/ndsync.py:42-56 | If every pair that the test accepts has such a mapping, the walk loses nothing |
| NdsyncDropping.StuckIsDropped | src/aislinn/mpi/ndsync.py:290-315 | An instance of the opposite: two orders of receiving lead from the start of four processes to two markings of one node, the test accepts the one with no way out as covered by the other one, which has a way out, and the walk loses a deadlock |
| NdsyncDropping.DiamondBreaks | src/aislinn/mpi/ndsync.py:275 | An instance: the check of a state space whose two ways meet again breaks in the assertion, because only the removal at the branching gives a pending send up |
| NdsyncDropping.MarkingsAreOk | src/aislinn/mpi/ndsync.py:106-144 | When calls are the first of their processes, with new marks, every marking that a way carries to a node has what the test asks of a marking |
| NdsyncCovering.ProcessedOk | src/aislinn/mpi/ndsync.py:348-448 | Every event whose call is new keeps that sends are remembered by their requests, that every call is one of one open operation, and that nothing waits for it yet |
| NdsyncChecker.CountDown | src/aislinn/mpi/ndsync.py:138-144 | The count of a node comes down to 0 exactly with the last arc that it waits for, whatever cycle arcs do |
| NdsyncChecker.AllProcessed | src/aislinn/mpi/ndsync.py:58-76 | An empty queue means that every node has been processed |
| NdsyncChecker.StartCountsOne | src/aislinn/mpi/ndsync.py:61-66 | The start that is not the first node begins with the count 1 |
| NdsyncChecker.OnceAndAfter | src/aislinn/mpi/ndsync.py:58-76 | When the walk starts in the only successor of the first node: the countdown processes every node once, after all sources of the unflagged arcs into it, if and only if no arc leads back to the start |
| NdsyncChecker.StartComesTwice | src/aislinn/mpi/ndsync.py:138-144 | A start behind the first node is processed a second time as soon as a node with an arc back to it is processed |
| NdsyncChecker.ReturnOvertakes | src/aislinn/mpi/ndsync.py:106-144 | An instance: the start is processed twice, and so a node is processed before one whose markings it should have got |
| Countdown.ComesLater | src/aislinn/mpi/ndsync.py:138-144 | A node whose count is 1 is queued and processed later as soon as one node with an arc to it is processed |
| NdsyncChecker.InvAlong | src/aislinn/mpi/ndsync.py:106-144 | The events of a way and the removals at its branchings keep the invariant of markings |
| NdsyncChecker.DeadlockIsReal | src/aislinn/mpi/ndsync.py:107-117 | At a final node with all sends and operations settled, the reported marks of a deadlock hold a circle of synchronisations that wait for each other |
| NdsyncChecker.StuckMeans | src/aislinn/mpi/ndsync.py:107-126 | When the walk stops: at a final node with everything settled exactly if synchronisations wait for each other in a circle, at a branching exactly if the first event of every arc depends on some mark |
| NdsyncChecker.DeadlockMarksAre | src/aislinn/mpi/ndsync.py:107-126 | What is reported: at a final node the marks that wait, at a branching every mark on which the first event of some arc depends, and nothing else |
| NdsyncLookups.LookupsSucceed | src/aislinn/mpi/ndsync.py:392-426 | If ids of new requests are unused, matched requests are active and no event comes twice, then along every way the look-up of the mark of a matched standard send never fails |
| StateSpace.DepthFirstSearch | src/aislinn/base/statespace.py:136-163 | Reports every arc of every reachable node once; its flags are those of the present stack; the unflagged arcs have a rank that falls along them |
| StateSpace.CycleFlagIsExact | src/aislinn/base/statespace.py:136-163 | An arc is flagged if and only if the unflagged arcs lead back from its target to its source |
| StateSpace.MetExactlyReachable | src/aislinn/base/statespace.py:136-163 | The nodes that the search meets are the reachable ones |
| StateSpace.InjectDfsIndegree | src/aislinn/base/statespace.py:277-281 | The count of every node is the number of unflagged arcs into it |
| Outputs.TreeReduce | src/aislinn/base/statespace.py:165-200 | On the part of a state space without cycles the memoised reduction is the reduced value of the first node, and on any state space what it returns is written along maximal paths; a reported cycle is there and visible, a state space whose cycles all write is reported exactly if it has one, and in general a cycle is reported exactly if the search meets it at a visible arc of its path |
| Outputs.CycleVisible | src/aislinn/base/statespace.py:186-193 | Whether the closing arc or an arc of the path from its target on is visible |
| Outputs.WritingCycleIsMissed | src/aislinn/base/statespace.py:182-196 | An instance of a cycle with a visible arc that the search does not meet |
| Outputs.GetAllOutputs | src/aislinn/base/statespace.py:202-239 | Exactly the outputs of all maximal paths, or exactly the smallest `limit` of them; if everything on cycles writes, nothing exactly if there is a cycle; otherwise every cycle has an arc that does not write |
| Outputs.GetOutputsCount | src/aislinn/base/statespace.py:241-270 | The exact number of outputs when it is at most `upto`, and nothing otherwise; with a number, every cycle has an arc that does not write |
| Outputs.FullIsOutputs | src/aislinn/base/statespace.py:202-239 | The reduction without truncation is the set of what is written along maximal paths |
| Outputs.ReducedIsSmallest | src/aislinn/base/statespace.py:209-239 | Truncating at every node still yields the `k` lexicographically smallest of all outputs |
| Outputs.ReducedIsCounted | src/aislinn/base/statespace.py:241-270 | Giving up at a node happens exactly when the whole has too many outputs |
| Outputs.SmallestOfPart | src/aislinn/base/statespace.py:227-239 | A part of a set that keeps the smallest elements has the same smallest elements |
| Outputs.SmallestAreSmallest | src/aislinn/base/statespace.py:227-239 | What is kept comes before everything that is dropped |
| Outputs.LessMeans | src/aislinn/base/statespace.py:227-239 | The order of outputs: a proper prefix first, else by the first character that differs |
| Outputs.SmallestUnderPrefix | src/aislinn/base/statespace.py:209-223 | Truncating before a prefix is put in front loses nothing that is needed later |
| Exploration.Generator.Run | src/aislinn/mpi/generator.py:151-187 | For depth first and breadth first and any number of workers: the nodes are the reachable states, with one arc per planned action to its result, and all workers end without tasks. Whether the program would have raised on the way is returned: never if every planned action takes time; and a worker alone makes its arcs in the order of the search and raises if and only if the last task of all takes no time |
| Exploration.Generator.MainCycle | src/aislinn/mpi/generator.py:168-187 | The polling loop ends, with everything explored; never raises if every planned action takes time, and with a worker alone exactly if the last task of all takes no time |
| Exploration.Generator.Turn | src/aislinn/mpi/generator.py:178-187 | After every turn no idle worker has a queued task and no task was lost or duplicated |
| Exploration.Generator.StartNextInQueue | src/aislinn/mpi/worker.py:462-502 | Hand-off keeps every task exactly once and leaves no idle worker with a queue. A worker alone takes a task from an empty queue exactly if its queue was not empty and all that the tasks in it can bring takes no time, which is so exactly if the last task of all is one of them; no worker does if every planned action takes time |
| Exploration.DepthFirstRaises | src/aislinn/mpi/worker.py:471-477 | An instance: of a program in which two matches commute and take no time, a worker alone raises when it searches depth first, and does not when it searches breadth first |
| Exploration.OrderIsUnique | src/aislinn/mpi/worker.py:471-502 | The order in which a worker alone makes its arcs is determined by the program: two lists in order are the same when no task is left |
| Exploration.Generator.TakeOrHandOff | src/aislinn/mpi/worker.py:471-500 | The inner loop: tasks go to sleeping workers until the last one, or one for which nobody sleeps |
| Exploration.Generator.SleepingNeighboursOf | src/aislinn/mpi/generator.py:144-149 | A worker without task and queue, or none when there is none |
| Exploration.Generator.ContinueInExecution | src/aislinn/mpi/worker.py:355-376 | A finished task becomes one arc, its result a node unless seen, whose actions are planned once |
| Exploration.Generator.AddNode | src/aislinn/mpi/generator.py:282-297 | A state is new exactly if it is not a node yet |
| Exploration.NothingLeft | src/aislinn/mpi/worker.py:462-502 | When every worker is idle without tasks, exactly the reachable states were explored |
| Exploration.FinishConserves | src/aislinn/mpi/worker.py:355-366 | Turning a finished task into an arc loses and duplicates no task |
| Exploration.PlanConserves | src/aislinn/mpi/worker.py:347-353 | Planning the actions of a new node keeps every action in exactly one place |
| Requests.NewRequestId | src/aislinn/mpi/state.py:671-688 | The id is unused and encodes the process and the type |
| Requests.IdParts | src/aislinn/mpi/state.py:671-688 | Process and type are recovered from the residues that the id was built from |
| Matching.SuppressorAccepts | src/aislinn/mpi/request.py:174-177 | What suppresses a receive accepts every message that it accepts |
| Matching.SuppressedMeans | src/aislinn/mpi/request.py:174-177 | On a communicator without repeated members a receive is suppressed by another one if and only if that takes every message that it takes |
| Requests.AcceptsMeans | src/aislinn/mpi/state.py:519-529 | A receive and a send fit if and only if communicator and tag do, the member of the communicator with the target's rank receives, and the one with the source's rank, if one is named, sends |
| Matching.CertainMeets | src/aislinn/mpi/state.py:513-529 | A deterministic match is between the members that both requests name; when there is none, no send fits an unsuppressed receive with a named source |
| Matching.DeterministicOvertakes | src/aislinn/mpi/state.py:513-529 | A deterministic match passes over an earlier receive for its message if and only if the receive is for any tag and an earlier one is from any source with just the tag of the message |
| Matching.PossibleOvertakes | src/aislinn/mpi/state.py:543-562 | The same for a match from any source, when no deterministic match is left |
| Matching.PossibleMeets | src/aislinn/mpi/state.py:543-562 | A receive from any source can be matched from exactly the processes that have a send that fits it |
| Matching.OvertakingHappens | src/aislinn/mpi/state.py:513-529 | An instance of such a match |
| Matching.SendsMatchInOrder | src/aislinn/mpi/state.py:513-562 | Over every run, sends with equal envelopes are matched in the order of their posting (section 3.5 of MPI-3.1) |
| Matching.ReceivesMatchInOrder | src/aislinn/mpi/state.py:513-562 | Over every run, receives with equal patterns are matched in the order of their posting |
| Matching.DeterministicCommute | src/aislinn/mpi/worker.py:255-265 | Deterministic matches at different receivers stay enabled and commute up to the order of finished requests |
| Matching.SortedIsUnique | src/aislinn/mpi/state.py:299-305 | Sorting finished requests with distinct ids erases their order |
| Matching.IdsStayUnique | src/aislinn/mpi/state.py:671-688 | Over every run whose requests get unused ids, the finished requests of a process have distinct ids |
| Matching.OrderIsErased | src/aislinn/mpi/worker.py:255-265 | Hence in every state of such a run two deterministic matches of different receivers may be applied in either order: the states differ in nothing once the finished requests are sorted by id |
| GlobalContext.GlobalContext.FindDeterministicMatch | src/aislinn/mpi/gcontext.py:159-164 | Finds a deterministic match, between the members of the communicator that the send and the receive name, or there is none in any process |
| GlobalContext.GlobalContext.FindNondeterministicMatchesOf | src/aislinn/mpi/state.py:543-562 | Exactly the possible matches of a process; the receiving process is the member that the send names |
| GlobalContext.GlobalContext.IsSuppressed | src/aislinn/mpi/state.py:513-529 | Whether an earlier receive suppresses the request |
| GlobalContext.GlobalContext.ApplyMatching | src/aislinn/mpi/gcontext.py:172-179 | The receive is finished with the rank, tag and message of the send, then the send; all else is as before |
| GlobalContext.GlobalContext.CheckCollectiveRequests | src/aislinn/mpi/worker.py:187-195 | Finishes one collective request that can be completed, or there is none |
| Matching.CollectiveFinished | src/aislinn/mpi/state.py:651-654 | A completed collective request is not pending any more, the others stay in order, and it is finished once more than before |
| GlobalContext.GlobalContext.MatchAndComplete | src/aislinn/mpi/worker.py:255-265 | The loop ends, because every round takes a request out of the lists, and stops only when no deterministic match and no completable collective request is left |
| Matching.ReceiveFinished | src/aislinn/mpi/state.py:645-649 | A matched receive is not pending any more, the other requests stay in order, and exactly one more request is finished: the receive, with its own id and pattern and with message, tag and rank of the sender |
| Matching.MatchRecords | src/aislinn/mpi/state.py:645-649 | A finished receive knows message and tag of the send and a rank of the sender; if it named a source and nobody is twice in the communicator, it is that rank |
| Matching.SendFinishedOnce | src/aislinn/mpi/state.py:341-358 | From posting to match, whatever happens in between, a send is finished exactly once: a rendezvous send at its match, every other send at its posting |
| Buffers.BufferManager.PostSend | src/aislinn/mpi/state.py:341-358 | A new message is held by the active send, by the finished one too unless it is a rendezvous send, and by the controller that has to receive it; all counts are exact; the posted request differs from the given one in its message only |
| Buffers.BufferManager.PostReceive | src/aislinn/mpi/state.py:355-368 | A pending receive holds no message; counts are exact |
| Buffers.BufferManager.PostNull | src/aislinn/mpi/state.py:341-359 | A send to nobody or a receive from nobody is finished at once and holds nothing |
| Buffers.BufferManager.PostCollective | src/aislinn/mpi/state.py:419-430 | A collective request holds no message |
| Buffers.BufferManager.ApplyMatching | src/aislinn/mpi/gcontext.py:172-179 | Counts are exact after the match and between its halves, so that no held message is freed |
| Buffers.BufferManager.FinishReceive | src/aislinn/mpi/state.py:645-649 | The receive takes over the message of a send that still holds it; counts are exact |
| Buffers.BufferManager.FinishSend | src/aislinn/mpi/state.py:637-643 | The send lets go of the message, or is finished and keeps it; counts are exact |
| Buffers.BufferManager.RemoveFinishedRequest | src/aislinn/mpi/state.py:656-659 | A closed request lets go of its message; counts are exact |
| Buffers.BufferManager.FinishCollective | src/aislinn/mpi/state.py:651-654 | A collective request is finished without a message |
| Buffers.BufferManager.Copy | src/aislinn/mpi/globalstate.py:39-46 | A copied global state holds everything once more; counts are exact |
| Buffers.BufferManager.Dispose | src/aislinn/mpi/globalstate.py:63-71 | A disposed global state lets go of everything; counts are exact |
| Buffers.BufferManager.NewState | src/aislinn/mpi/globalstate.py:31-36 | A first global state has empty request lists |
| Buffers.BufferManager.EnterOperation | src/aislinn/mpi/collectives.py:161-172 | A buffer of a collective operation is held by it and by the controllers that have to receive it |
| Buffers.BufferManager.FinishOperation | src/aislinn/mpi/collectives.py:68-75 | A finished operation leaves the list and lets go of its buffers |
| Buffers.BufferManager.WriteData | src/aislinn/vgtool/controller.py:606-616 | One controller less has to receive the buffer; the last one drops the reference of its maker |
| Buffers.BufferManager.Cleanup | src/aislinn/vgtool/controller.py:564-567 | Exactly the buffers without references are freed; the others stay as they are |
| Buffers.BufferManager.IncRef | src/aislinn/vgtool/resource.py:28-30 | One more holder, one more count |
| Buffers.BufferManager.DecRef | src/aislinn/vgtool/resource.py:37-41 | One holder less, one count less; at 0 the buffer is listed as unused |
| Buffers.HeldIsUsed | src/aislinn/vgtool/controller.py:582-616 | A buffer that anything holds has a positive count and is not listed as unused |
| Buffers.SendFirstFrees | src/aislinn/mpi/gcontext.py:172-179 | Why the receive goes first: with the send first the count would reach 0 exactly if the pending send were the only holder and no controller waited |
| Buffers.BufferManager.NothingInUse | src/aislinn/mpi/worker.py:413-431 | With all global states disposed of and all buffers received, every buffer is unused |
| Buffers.BufferManager.Run | src/aislinn/mpi/worker.py:413-431 | Conservation over every run of posting, matching, completing, closing, opening and entering operations, copying, disposing, receiving and freeing: the counts are exact after each step, and when in the end all states are disposed of and all buffers received, none is left; each step has done what `Done` says to the states and to the buffers that controllers wait for |
| Intervals.Intervals.FindFreeArea | src/aislinn/base/utils.py:142-168 | Exactly the uncovered parts of the range, apart and in order |
| Intervals.Intervals.Add | src/aislinn/base/utils.py:133-136 | The result is exactly the bytes whose cover count goes from 0 to 1 |
| Intervals.Intervals.Remove | src/aislinn/base/utils.py:138-140 | The result is exactly the bytes whose cover count goes to 0 |
| MemoryLocks.LockedMemory.LockMemory | src/aislinn/mpi/state.py:329-333 | A byte is read-only while some region covers it, defined once released, and otherwise as it was |
| MemoryLocks.LockedMemory.UnlockMemory | src/aislinn/mpi/state.py:335-339 | The same after releasing regions: bytes that another request covers stay read-only |
| MemoryLocks.ReadOnlyIsLocked | src/aislinn/mpi/state.py:329-339 | A byte that the program itself did not make read-only is read-only exactly if some pending request covers it |
| MemoryLocks.LockedMemory.Run | src/aislinn/mpi/state.py:329-339 | The same after any interleaving of starting and closing requests |
| Datatypes.Controller.Pack2 | src/aislinn/mpi/types.py:59-61 | For every nesting of types: the packed bytes are those at the addresses of the type map, in order: byte `k` is the one at `PlaceOf(t, k)` |
| Datatypes.Controller.PackVector | src/aislinn/mpi/types.py:137-145 | The three nested loops of a vector type visit its type map in order |
| Datatypes.Controller.PackIndexed | src/aislinn/mpi/types.py:206-214 | The nested loops of an indexed type visit its type map in order |
| Datatypes.Controller.Unpack | src/aislinn/mpi/types.py:62-65 | For every nesting of types: bytes of the buffer are stored in order at the addresses of the type map: byte `k` goes to `PlaceOf(t, k)`, and no other byte changes |
| Datatypes.Controller.UnpackVector | src/aislinn/mpi/types.py:147-158 | The same for the loops of a vector type |
| Datatypes.Controller.UnpackIndexed | src/aislinn/mpi/types.py:216-228 | The same for the loops of an indexed type |
| Datatypes.Deliver | src/aislinn/mpi/context.py:432-444 | A message is unpacked as whole items of the receiving type, each byte at its place; it is reported as too long exactly if it holds more items than asked for; there is no count to unpack with exactly if it does not hold whole ones, and the division fails exactly for items of size zero |
| Datatypes.TypeMapSize | src/aislinn/mpi/types.py:41-228 | Packing `n` items yields exactly `n` times the size |
| Datatypes.PlaceIs | src/aislinn/mpi/types.py:41-228 | Byte `k` of any number of items is packed from, and unpacked to, `PlaceOf(t, k)` |
| Datatypes.VectorPlace | src/aislinn/mpi/types.py:137-158 | Byte `k` of block `j` of item `i` of a vector type lies `i` extents of the vector and `j` strides from the start |
| Datatypes.IndexedPlace | src/aislinn/mpi/types.py:191-228 | Byte `k` of block `j` of item `i` of an indexed type lies `i` times the largest end of a block and the displacement of block `j` from the start |
| Datatypes.UnpackSize | src/aislinn/mpi/types.py:191-192 | The distance of items of an indexed type: no end of a block exceeds it, and one reaches it |
| Datatypes.Transfer | src/aislinn/mpi/types.py:137-158 | The `k`-th packed byte arrives at the `k`-th address of any receiving type map with distinct addresses |
| Datatypes.OutsideUntouched | src/aislinn/mpi/types.py:147-158 | Bytes outside the type map are not touched |
| Datatypes.PackUnpack | src/aislinn/mpi/types.py:206-228 | Packing and unpacking with one type is the identity, even when blocks overlap |
| Datatypes.GetCount | src/aislinn/mpi/types.py:31-35 | The number of whole items, nothing exactly if there is none, and a failing division exactly for items of size zero |
| Collectives.GlobalState.CallCollective | src/aislinn/mpi/globalstate.py:99-117 | The k-th call of every member joins the same operation; it fails exactly when kind, blocking or root differ from what the first caller agreed on |
| Collectives.GlobalState.FinishRequest | src/aislinn/mpi/worker.py:187-195 | A collective request is finished exactly if the rule of the operation allows its process to complete |
| Collectives.GlobalState.CloseRequest | src/aislinn/mpi/collectives.py:68-75 | Closing the request completes the operation; it is removed by the last member |
| Collectives.CollectiveOperation.Enter | src/aislinn/mpi/collectives.py:61-66 | One member less has to enter; the first to name a root decides |
| Collectives.ListedInHistory | src/aislinn/mpi/collectives.py:41-48 | What a call is compared with is what the first caller agreed on: a listed operation has been entered by somebody, and carries that agreement |
| Collectives.CanBeCompletedIsExact | src/aislinn/mpi/collectives.py:184-185 | The test of each kind of operation is exact: all have entered, the process is not the root or all have entered, or the root has entered, as the operation requires |
| Collectives.ListedUntilCompleted | src/aislinn/mpi/collectives.py:68-78 | An operation that somebody entered is listed exactly as long as some member has not completed it |
| Collectives.CompletedWereAllowed | src/aislinn/mpi/collectives.py:291-293 | Nobody has completed a barrier, allgather, allreduce, scan or reduce-scatter before all entered, no root a gather or reduce before all entered, nobody a bcast or scatter before the root entered |

## Left out

- PageMemory: page flags are assumed to be readable and writable, so the remapping of memory during a restore (src/vgtool/an_main.c:1290-1370) and `set_address_range_page_flags` are not modelled; the flags travel in `Transport`.
- PageMemory: addresses are unbounded integers; the 64-bit wrap-around at the end of the address space is not modelled. Numbers that travel in `Transport` are required to fit into 8 bytes.
- PageMemory.MemorySpace.RestoreMemory: the two loops of `memimage_restore` are one walk over the current pages; that it meets all pages of the image is proved for states saved by the same client. That it does so for states pulled from another client rests on pulling a page, which makes a page here when its base has none (`AdoptPage`).
- PageMemory.MemorySpace.ClientWrite: when the store is refused, the program reports it and the client does not go on; here it does.
- PageMemory.MemorySpace.Step: a store of the client that bypasses the checks is only modelled for one byte that is not readable (`Scribble`). A load whose first byte is undefined and whose range crosses the end of the page is not followed (`BeyondPage`): `trace_read` counts on behind the permission array of the page, so what it takes for permissions there, and with them which bytes of the next page become 0, is not determined by the state.
- PageMemory.MemorySpace.TraceRead: what happens under `BeyondPage` is left open, see `Step`; a refused load ends the client.
- BlockList.Heap.Alloc: after the report that the heap is full the block list is without its END; the contract says nothing about it.
- `user_realloc`: it copies the size of the old block even when shrinking, and keeps the old block.
- Transport.PushState: the assertion that one write takes the whole rest of the buffer is a result, `ok`. Chunks have to fit into the buffer, as the program asserts.
- Transport.PullState: bytes read beyond the end of one state are not modelled.
- StateTransfer.TransferAndRestore: for pages whose readable bytes lie in readable and writable machine pages, and whose unmapped machine pages have no permissions; bytes of other machine pages do not travel and are not restored, see `PageRoundTrip` and page flags above. Both clients have memories of the same size.
- NdsyncCovering.IsCoveredBy: about two markings of one state of the program, with the same processes and requests and the same callers of common open operations; other pairs do not meet at a node.
- NdsyncChecker.NdsyncCheck: that events fit the marking they are processed with is a precondition along the explored ways, `EventsOk`; `LookupsSucceed` proves the part of it that is about markings and not about events. That the markings of a node are about one state, `StatesOk`, is a precondition as well; `MarkingsAreOk` proves the part of it that is about single markings.
- NdsyncChecker: the reconstruction of the deadlock, and the assertions that no request is active or finished at a final node, are left out.
- Outputs.TreeReduce: on graphs with cycles that are not reported, what is returned is proved to be written along maximal paths, not that it is all; the program forgets the value of a node in which an invisible cycle ends, and what it returns depends on the order of arcs.
- Exploration.Generator.Run: error-free runs over a finite space with an injective hash; `max_states`, errors, states without a hash, and the transfer of states and buffers at a hand-off are left out. The time that a task takes is an arbitrary number of turns.
- Exploration.Generator.StartNextInQueue: for several workers `Log.fell` records that some worker did, and only the sufficient condition for not raising is stated; which worker takes which task then depends on the times at which the others become idle.
- Matching: the data, the addresses and the persistent requests of a process are left out, as are probes and their promises. Removal from a request list by equality is removal by a unique serial number.
- Buffers: the state cache of a controller with its revived states (src/aislinn/vgtool/resource.py:32-35, src/aislinn/vgtool/controller.py:623-680), the hand-over of buffers between workers and the extra buffer that a reduce-scatter makes at its end are left out; a buffer is made for at least one controller.
- Buffers: closing requests (src/aislinn/mpi/context.py:374-450) is modelled by its parts: `RemoveFinishedRequest`, `UnlockMemory`, `Deliver` and `CloseRequest`.
- Datatypes: `StructType` is left out because its `unpack` passes the outer count; so are `check` and `memory_regions`, which do not advance between items.
- Collectives: MPI_COMM_SELF, calls of `CommCreate` by non-members, and the data that operations compute and copy are left out; groups have no member twice.
- Requests.NewRequestId: the three request lists are one set of used ids; the runs of `IdsStayUnique` have no persistent requests.
- StateSpace: `find_path_to_events` follows only the last arc of each node; it, the DOT and XML writers, reports, charts, statistics and command line parsing are left out.
- Instrumentation, system calls, sockets below the buffers, the text protocol of commands and process start-up are left out as input and output.
