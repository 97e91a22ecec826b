# A verified model of the Boehm-Demers-Weiser collector

This project models the conservative garbage collector in `gc/` and proves, in Dafny, what its
parts promise each other. It covers the collector's marker, sequential and parallel, its block
allocator and header index, its lazy sweeper and small-object free lists, finalization, the
signal handshake that stops the world, typed mark descriptors, root exclusions and the size map.

Check everything with `dafny verify dfyconfig.toml`.

| file | models |
|---|---|
| `ObjectGraph.dfy` | the heap as objects with words, and reachability |
| `Runs.dfy` | runs of state machines |
| `Marker.dfy` | `gc/mark.c`, `GC_stopped_mark` of `gc/alloc.c` and the dirty table of `gc/os_dep.c` |
| `Collections.dfy` | when collections start, go on and end in `gc/alloc.c` |
| `ParallelMark.dfy`, `ParallelProgress.dfy` | the parallel part of `gc/mark.c`, as steps of any number of threads: safety and progress |
| `StopWorld.dfy`, `StopProgress.dfy` | `gc/pthread_stop_world.c` and the parts of `gc/pthread_support.c` it relies on: safety and progress |
| `FreeLists.dfy`, `BlockIndex.dfy`, `BlackList.dfy` | doubly linked free lists, `gc/headers.c` with `GC_base`, `gc/blacklst.c` |
| `BlockSteps.dfy`, `BlockBytes.dfy`, `BlockAlloc.dfy` | `gc/allchblk.c` and heap growth: what each step keeps, where the bytes are, then the operations |
| `Sweep.dfy` | `gc/reclaim.c`, `gc/malloc.c`, `gc/new_hblk.c` and the end of a collection |
| `HeapSteps.dfy`, `WholeHeap.dfy` | blocks, objects, marks and the control flow of collections together |
| `HashTable.dfy`, `Finalize.dfy` | `gc/finalize.c` |
| `FinalSweep.dfy` | finalization and then the sweep, at the end of a collection |
| `Typed.dfy` | `gc/typd_mlc.c` and the descriptor cases of the marker |
| `Exclusions.dfy`, `SizeMap.dfy` | root exclusions of `gc/mark_rts.c`, the size map of `gc/misc.c` |

Objects with state are classes that hold that state in one datatype value, with ghost fields for
the plain picture it stands for: `Marker.Collector`, `Collections.Driver`, `BlockAlloc.BlockHeap`,
`Sweep.ObjectHeap`, `Finalize.Finalization`, `Exclusions.Table`, `SizeMap.Map`. The block allocator
and the sweeper do their work in methods on that value, which the class methods call; loops of the
source are loops here. Concurrent protocols are state machines with one action per access to shared memory.

The main theorems:

- `Collections.Run`: over every interleaving of the program with the control flow of collections,
  with a bounded mark stack that drops entries, abandoned attempts and writes known only as dirty
  pages, no collection aborts and each one that finishes has marked everything reachable; full ones
  mark nothing but what chains of possible references lead to. `Marker.Collector.MarkUntilDone`
  shows that marking terminates even if the mark stack never grows.
- `WholeHeap.Run`, `World.Make`, `World.Finish` and `ReachableStays`: the block allocator, the lazy
  sweeper and the marker, driven by the control flow of collections, incremental or not, together
  never lose or hand out anything reachable, and never leak a block: the blocks in use, those
  dropped as black-listed included, are exactly the object heap's in every state, and a finished
  collection leaves none in which nothing is held.
- `ParallelMark.ParallelMarkingComplete` and `StopWorld.StopTheWorldWorks`: the two protocols, for
  any number of threads and every run. `ParallelProgress.EveryRunEnds` and `EveryPhaseCanEnd`: a
  marking phase ends under every schedule. `StopProgress.EveryStopCanEnd` and `WakeSureKept`: no
  wake-up is lost, and a stop or restart can always be completed.
- `BlockAlloc.Run`, `BlockAlloc.BlockHeap.Allochblk` and `ApplyToAllBlocks`: the heap is always
  exactly tiled, indexed, linked, counted and coalesced; allocation fails exactly when nothing
  suits; walks during which blocks are freed visit each block once.
- `Sweep.Run`: nothing held is ever handed out, nothing marked is ever freed or relinked; a new
  block is taken exactly when sweeping cannot find an object.
- `Finalize.BrokenCyclesAreFinalized`, `QueuedIsUnreachable`, `QueuedSurvives` and
  `KeepsReferentsExactly`: what disappearing links and finalizers promise, over the heap as the
  links leave it; `FinalSweep.FinishCollection`: and what they promise survives the sweep.
- `Typed.MakeDescriptor`, `ArrayDescriptorExact` and `ArrayMarkProc`: descriptors mean what they
  were made from.

The contract of a run (`Runs.Follows`) gives a result for every event and says that there are states
in between: each event leads from its state to the next, with its result, as a relation of the
module says (`Collections.Did`, `BlockAlloc.OpDid`, `Sweep.EventDid`, `WholeHeap.ActDid`), which also
says exactly when an event is skipped.

Where the code does not do what its comments or its callers expect, the model follows the code and
states exactly when the expectation holds:

- `ParallelMark.StaysIdleExactly`: the comment at `gc/mark.c:880-888` that the count of active
  markers stays zero once it is zero holds in a run exactly if afterwards no helper that has joined
  becomes active and no waiting thread sees an entry (`ActiveCountMayRise` is a run where it does
  not). Termination detection does not need it.
- `Finalize.ReferencesStayExactly`: a disappearing link on a word that refers to some other object
  destroys that reference even in an object in use (`ForeignLinkCuts`).
- `Finalize.KeepsReferentsExactly`: with Java-style finalization off, objects with unordered
  finalizers are queued without marking what they refer to.
- `Finalize.Finalization.UnregisterLink`: faults exactly when called with an aligned link before any
  link was registered.
- `Typed.SoundExactlyIfSequencesAllocated`: a failed allocation of a sequence descriptor goes
  unnoticed and leaves a null pointer in the result.
- `Exclusions.Table.Exclude`: a range given backwards breaks the table, and a full table is detected
  only after entries were shifted past its end.
- `Sweep.LooksEmptyExactly`: in the MARK_BIT_PER_OBJ build the mark count of uncollectable blocks is
  one too low. Such a block looks empty exactly if one of its objects is marked, and nearly full if
  none is. With one mark bit per granule, the build all other results are for, it looks empty
  exactly if none is marked.

## Model

| member | source | states |
|---|---|---|
| `Marker.TakenSlots` | gc/mark.c:641-690 | Taking the top entry, or the first part of a long one, leaves every word it named examined or still named by an entry. |
| `Marker.ScanKeepsCovered` | gc/mark.c:611-870 | Examining the taken words keeps the marking invariant: every word of a marked object, exceptions apart, refers to a marked object or is named by a stack entry. |
| `Marker.ScanKeepsRoots` | gc/mark.c:611-870 | The same for the words of the roots. |
| `Marker.TopScanned` | gc/mark.c:611-870 | One round of the marking loop keeps both invariants together. |
| `Marker.PiecesExamine` | gc/mark.c:641-696 | However a range is split, halved for other markers or cut into rounds, a word is examined at least once exactly if it lies in the range. |
| `Marker.PiecesExamineOnce` | gc/mark.c:641-696 | Without sharing each word of the range is examined exactly once. |
| `Marker.PiecesNonEmpty` | gc/mark.c:641-696 | Splitting never creates an empty range. |
| `Marker.ScanOrderExact` | gc/mark.c:782-870 | Searching backwards for the last plausible word, deferring it and scanning the rest forwards visits every position once. |
| `Marker.PushedBlockCovered` | gc/mark.c:1746-1797 | Pushing the marked objects of a block removes that block from the exceptions of the invariant. |
| `Marker.WriteKeepsCovered` | gc/os_dep.c:2470-2474 | A heap write keeps the invariant if the written object joins the exceptions, which the dirty table records. |
| `Marker.ForgetKeepsCovered` | gc/reclaim.c:113-323 | Sweeping or freeing an object nobody refers to keeps the invariant, even if stale integers still look like it. |
| `Marker.AllocationKeepsSound` | gc/malloc.c:101-132 | Allocating an object, with its mark bit found set or clear, keeps the whole collector invariant in every phase. |
| `Marker.Collector.PushEntry` | gc/include/private/gc_pmark.h:131-144 | A push appends the entry, or on a full stack discards the top entries, records the overflow and makes marking invalid. |
| `Marker.Collector.PushContents` | gc/include/private/gc_pmark.h:150-160 | A plausible word marks and pushes exactly the object it names; if nothing new is marked nothing changes. |
| `Marker.Collector.LastPlausible` | gc/mark.c:782-820 | The backward search returns the last plausible word of the range, if there is one. |
| `Marker.Collector.ScanForward` | gc/mark.c:821-860 | The forward scan marks exactly the objects that the words name. |
| `Marker.Collector.ScanWords` | gc/mark.c:782-870 | The whole range scan marks exactly the objects that the range names, and examines each word once. |
| `Marker.Collector.TakeTop` | gc/mark.c:641-690 | The top entry, or its first words, leave the stack, which gets smaller. |
| `Marker.Collector.ScanTop` | gc/mark.c:641-870 | Exactly the objects named by the words taken get marked, each newly marked one is pushed, and the rest of the entry stays; without a new mark there was no overflow and the stack shrank. |
| `Marker.Collector.MarkTop` | gc/mark.c:641-870 | One round keeps the invariant; without a new mark there was no overflow and the stack shrank. |
| `Marker.Collector.MarkFrom` | gc/mark.c:611-870 | A batch of rounds keeps the invariant; without a new mark there was no overflow and the stack shrank. |
| `Marker.Collector.PushMarked` | gc/mark.c:1746-1797 | The marked objects of a block go on the stack without overflow, so the block is accounted for. |
| `Marker.Collector.PushNextMarked` | gc/mark.c:1817-1829 | The heap scan advances past exactly one used block, whose marked objects are then all on the stack; it reports the end exactly when no used block is left from where it stood. |
| `Marker.Collector.PushNextMarkedDirty` | gc/mark.c:1832-1860 | The same for dirty blocks: no written object is skipped. |
| `Marker.Collector.PushNextMarkedUncollectable` | gc/mark.c:1865-1883 | The same for uncollectable blocks. |
| `Marker.Collector.PushSegments` | gc/mark.c:1255-1270 | All static segments are put on the stack. |
| `Marker.Collector.MarkAndPushStack` | gc/mark.c:1399-1432 | A word found on a thread stack marks the object it names and dirties its page. |
| `Marker.Collector.PushEager` | gc/mark.c:1489-1511 | Everything the thread stacks and registers name is marked at once. |
| `Marker.Collector.PushRoots` | gc/mark_rts.c:566-633 | All roots are accounted for unless the stack overflowed. |
| `Marker.Collector.GrowMarkStack` | gc/mark.c:1188-1240 | Growing empties the stack and doubles its limit, or keeps the old limit when memory is short. |
| `Marker.Collector.StepRescuers` | gc/mark.c:318-345 | The PUSH_RESCUERS step keeps the invariant and makes progress. |
| `Marker.Collector.ScanUncollectable` | gc/mark.c:346-370 | The PUSH_UNCOLLECTABLE step keeps the invariant; the phase ends with the roots pushed. |
| `Marker.Collector.StepInvalid` | gc/mark.c:402-428 | The INVALID and PARTIALLY_INVALID steps keep the invariant; PARTIALLY_INVALID is entered with an empty stack and the scan at the bottom, each step with an empty stack passes one used block, and the roots are pushed again only with an empty stack and no used block left to pass. |
| `Marker.Collector.MarkSome` | gc/mark.c:310-433 | Every step of the state machine keeps the invariant, of which the record of the current heap scan is part: since the last fall to INVALID it began at the bottom and went up block by block without overflow, and only past the last used block are the roots pushed again. The end is reported only from ROOTS_PUSHED with an empty stack; without a new mark a measure decreases, so between two falls to INVALID something new was marked; marks stay within any set closed under what its words and the roots name. |
| `Marker.Collector.ClearMarks` | gc/mark.c:249-260 | All marks but those of uncollectable objects are gone and marking is invalid. |
| `Marker.Collector.InitiateGc` | gc/mark.c:263-281 | A partial collection starts from the dirty pages, a full one from nothing; the abort happens exactly in the other phases. |
| `Marker.Collector.FinishedMeansMarked` | gc/include/private/gc_pmark.h:450-490 | A finished phase whose roots did not change since they were pushed has marked everything reachable. |
| `Marker.AllNamedIsClosed` | gc/mark.c:611-870 | What chains of possible references lead to contains whatever its own words and the roots name, so marking can stay within it. |
| `Marker.Collector.MarkUntilDone` | gc/alloc.c:540-568 | Marking with the world stopped terminates for every mark stack size, growing or not, and ends finished unless stop_func gave up. |
| `Marker.Collector.StoppedMark` | gc/alloc.c:514-614 | When it succeeds, everything reachable from the roots is marked; when it is abandoned the collector can go on later. |
| `Marker.Collector.Reset` | gc/alloc.c:385-386 | Flushing the mark stack and clearing the marks keeps the invariant. |
| `Marker.Collector.FullMark` | gc/alloc.c:385-399 | Marking from cleared marks never aborts; if it finishes everything reachable is marked; and in any case only objects are marked that some chain of possible references, true or not, leads to from the roots or an uncollectable object. |
| `Marker.Collector.Write` | gc/os_dep.c:2470-2474 | A heap write with its dirty notification keeps the collector invariant in every phase. |
| `Collections.Driver.CollectALittle` | gc/alloc.c:286-320 | GC_collect_a_little_inner goes on with a collection in progress; otherwise GC_maybe_gc starts a partial, a full or a stop-the-world one, and the state GC_stopped_mark will be called in is one it accepts. |
| `Collections.Driver.TryToCollect` | gc/alloc.c:345-361 | GC_try_to_collect_inner first finishes a collection in progress. |
| `Collections.Driver.StepLittle` | gc/alloc.c:441-470 | A round of the marking loop is a step of GC_mark_some; the deficit left by an abandoned attempt is paid off; after the last round control returns to the caller. |
| `Collections.Driver.StepWait` | gc/alloc.c:352-362 | The loop that finishes a collection in progress ends with none in progress or because the stop function said so; else it goes on with GC_collect_a_little_inner. |
| `Collections.Driver.StepPrepare` | gc/alloc.c:378-390 | Marks are cleared only with no collection in progress, and only if GC_reclaim_all was not stopped. |
| `Collections.Driver.MarkStopped` | gc/alloc.c:514-614 | GC_stopped_mark, called from any of its three callers, never meets a phase in which GC_initiate_gc aborts; finished means everything reachable is marked; abandoned, the deficit and the attempts are recorded and the collection goes on later, or is forgotten without incremental collection. |
| `Collections.Driver.Step` | gc/alloc.c:286-473 | Every event, of the program or of the control flow of collections, keeps the invariant and does exactly what its case of `Did` says. |
| `Collections.Run` | gc/alloc.c:286-473 | For every interleaving of program and collector steps, with collections started, waited for, stopped, abandoned and resumed: one report per event; consecutive states are related by what the event does, or equal where it may not happen; no collection aborts; each finished one has marked everything reachable at that moment. |
| `ParallelMark.CountsKept` | gc/mark.c:1019-1120 | The helper and active counts always equal the numbers of threads in the phase and active in it. |
| `ParallelMark.PositionsKept` | gc/mark.c:900-931 | No step moves an index past an entry that is not taken. |
| `ParallelMark.WorkKept` | gc/mark.c:900-1120 | Steal, return, share, mark and scan steps keep every unexamined word of a marked object on some shared or local stack, or the phase invalid. |
| `ParallelMark.InvKept` | gc/mark.c:900-1182 | Every step of every thread keeps the invariant. |
| `ParallelMark.LeavingMeansQuiescent` | gc/mark.c:1060-1120 | A thread that leaves the phase does so when no stack holds an entry and nobody is about to mark. |
| `ParallelMark.QuiescentKept` | gc/mark.c:1160-1182 | From then on no step creates work, so late helpers find nothing. |
| `ParallelMark.NoWorkMeansClosed` | gc/mark.c:1122-1158 | No work and no recorded overflow means that the marks are closed under references. |
| `ParallelMark.ParallelMarkingComplete` | gc/mark.c:1122-1182 | At the end of every run with any number of threads, no entry is left and either an overflow was recorded or everything reachable is marked. |
| `ParallelMark.RunStaysWithin` | gc/mark.c:900-1182 | In every run marks stay within any set that holds the objects marked or stacked at the start and all that its words could name. |
| `ParallelMark.BelowFirstIsTaken` | gc/mark.c:1030-1110 | In every run all entries below any thread's first-nonempty index are taken. |
| `ParallelMark.ActiveCountMayRise` | gc/mark.c:880-888 | An instance of the next two rows: a late helper raises the active count again. |
| `ParallelMark.ActiveRisesExactly` | gc/mark.c:880-888 | From zero the active count rises in exactly two ways: a helper that has joined becomes active, or a waiting thread sees an entry at or after the shared first-nonempty index. |
| `ParallelMark.StaysIdleExactly` | gc/mark.c:880-888 | In every run the count, once zero, stays zero for the rest of the run if and only if no such step is taken. |
| `ParallelProgress.RunningWellKept` | gc/mark.c:900-931 | Besides the invariant, a thread that has looked at cells without finding an entry has not reached the end of those it was to look at. |
| `ParallelProgress.StepLeavesLess` | gc/mark.c:900-1182 | Every step of every thread but the joining of a helper leaves less to do in one lexicographic order, also when two threads take the same entry or mark the same object, an index read is out of date, or a thread wakes for nothing. |
| `ParallelProgress.SomeStepIsPossible` | gc/mark.c:1060-1120 | As long as a thread is in the phase, one that is active can go on, or one that waits can leave or wake. |
| `ParallelProgress.EveryRunEnds` | gc/mark.c:1019-1182 | However the threads are scheduled, no run goes on forever without new helpers. |
| `ParallelProgress.EveryPhaseCanEnd` | gc/mark.c:1122-1182 | From every state of every run the phase can be completed: everybody leaves. |
| `ParallelProgress.EndedPhaseIsComplete` | gc/mark.c:1122-1158 | Once everybody has left, no entry is left and everything reachable is marked, or an overflow was recorded. |
| `StopWorld.StoppedMeansStopped` | gc/pthread_stop_world.c:373-440 | Whenever the stop is complete, every other registered unfinished thread is in its handler for this stop or blocked, with its stack pointer saved, and the semaphore is zero. |
| `StopWorld.OwnStepKeepsInv` | gc/pthread_stop_world.c:149-217 | Every step of a suspend handler keeps the invariant. |
| `StopWorld.LockStepKeepsInv` | gc/pthread_support.c:887-955 | Registering, finishing, unregistering, blocking and unblocking keep it. |
| `StopWorld.SignalKeepsInv` | gc/pthread_stop_world.c:332-371 | Sending, skipping and counting a suspend signal keep it. |
| `StopWorld.StageStepKeepsInv` | gc/pthread_stop_world.c:373-504 | The steps of stopping and restarting keep it. |
| `StopWorld.InvKept` | gc/pthread_stop_world.c:149-504 | Every step of every thread keeps the invariant. |
| `StopWorld.StopTheWorldWorks` | gc/pthread_stop_world.c:373-504 | After any run with any number of stops and starts, when GC_stop_world has returned the world is stopped. |
| `StopWorld.HeldStaysHeld` | gc/pthread_stop_world.c:185-217 | No step but lowering the flag lets a held thread out of its handler, whatever signals arrive. |
| `StopProgress.WakeSureKept` | gc/pthread_stop_world.c:185-217 | No wake-up is lost: at every step of every thread, whoever is in sigsuspend, or will be before it looks at the flag or the count again, for a stop that is over has a restart signal pending. |
| `StopProgress.StepsWork` | gc/pthread_stop_world.c:149-504 | While a stop or restart is under way, each step of the thread that stops the world, or of one that owes an acknowledgement, leaves less work; other steps leave as much. |
| `StopProgress.SomeStepIsReady` | gc/pthread_stop_world.c:373-504 | Such a step is then always possible, and waits for no signal that was not sent. |
| `StopProgress.LeavingIsReady` | gc/pthread_stop_world.c:185-217 | A thread whose stop is over is never stuck on its way out of its handler, and each of its steps brings it nearer. |
| `StopProgress.LeavingIsKept` | gc/pthread_stop_world.c:185-217 | No step of another thread, a new stop included, sets it back. |
| `StopProgress.EveryStopCanEnd` | gc/pthread_stop_world.c:332-504 | Whatever happened so far, a stop or restart that is under way can be completed with the signals that were sent. |
| `StopProgress.NoStopGoesOnForever` | gc/pthread_stop_world.c:332-504 | However the threads are scheduled, only so many steps of it can be taken before it is over. |
| `FreeLists.ListForMonotone` | gc/allchblk.c:86-93 | Larger blocks are on later lists, and sizes below the threshold have lists of their own. |
| `FreeLists.UnlinkKeepsChains` | gc/allchblk.c:281-317 | Taking a block off a doubly linked list leaves exactly the others, linked both ways. |
| `FreeLists.LinkKeepsChains` | gc/allchblk.c:353-380 | Adding a block puts exactly it in front, linked both ways. |
| `FreeLists.ReplaceKeepsChains` | gc/allchblk.c:525-545 | On a split the rest takes exactly the place of the block on its list. |
| `BlockIndex.JumpIsSafe` | gc/include/private/gc_hdrs.h:115-125 | Following a forwarding count skips no block start and does not pass the owner. |
| `BlockIndex.Index.GetIndex` | gc/headers.c:205-251 | A bottom index is added where it belongs; the linked ones stay in address order and none is lost. |
| `BlockIndex.Index.InstallCounts` | gc/headers.c:270-284 | Exactly the later blocks of an allocation get their capped distance, and all have a bottom index. |
| `BlockIndex.Index.RemoveCounts` | gc/headers.c:297-305 | Exactly the counts of the block's later blocks are removed. |
| `BlockIndex.Index.PrevBlock` | gc/headers.c:372-401 | The last block, free or used, that starts at or before an address, or none. |
| `BlockIndex.Index.NextUsedBlock` | gc/headers.c:336-364 | The first used block that starts at or after an address, or none. |
| `BlockIndex.Index.FreeBlockEndingAt` | gc/allchblk.c:322-347 | The free block that ends at an address, if and only if there is one. |
| `BlockIndex.Index.FindOwner` | gc/misc.c:329-366 | Following counts from any address of a used block leads to its header. |
| `BlockIndex.Index.Base` | gc/misc.c:329-366 | The start of the object containing a byte, for every interior byte, and 0 exactly when no object contains it. |
| `BlackList.Lists.IsBlackListed` | gc/blacklst.c:217-254 | The word-skipping scan answers 0 exactly if no block is listed by the plain definition; otherwise all starts before its answer are listed too. |
| `BlackList.Lists.FirstUsable` | gc/allchblk.c:669-690 | The allocator's search ends at the least usable start in the block, or past the last one if there is none. |
| `BlockSteps.TakeOffKeepsPartial` | gc/allchblk.c:281-317 | Removing a block from a list keeps tiling, index, links, counts and classification, with that block as the only exception. |
| `BlockSteps.PutOnKeepsPartial` | gc/allchblk.c:353-380 | Adding a block without free neighbours ends the exception. |
| `BlockSteps.OpenKeepsPartial` | gc/allchblk.c:826-845 | A freed block without its counts is the only exception to the invariant. |
| `BlockSteps.MergeKeepsPartial` | gc/allchblk.c:850-870 | Two adjacent free blocks become one and everything else stays in order. |
| `BlockSteps.CutLoose` | gc/allchblk.c:482-510 | Cutting a free block in two keeps the heap tiled and indexed. |
| `BlockSteps.SplitKeepsPartial` | gc/allchblk.c:512-555 | Splitting at a black-listed prefix keeps everything in order, with both parts as exceptions and byte counts right. |
| `BlockSteps.SealKeepsPartial` | gc/allchblk.c:777-790 | Installing counts and header turns a loose block into one in use, with everything in order. |
| `BlockSteps.ChopKeepsPartial` | gc/allchblk.c:728-757 | A dropped block becomes single blocks in use, with everything in order. |
| `BlockSteps.ExtendKeepsPartial` | gc/alloc.c:897-930 | A fresh region joins the tiling. |
| `BlockBytes.BytesConserved` | gc/allchblk.c:571-876 | The bytes on the free lists and the extents of the blocks in use, dropped ones included, add up to the heap. |
| `BlockAlloc.Coalesce` | gc/allchblk.c:814-876 | Freed memory ends up in one block with no free neighbour, on the right list; used blocks are untouched. |
| `BlockAlloc.SplitBlock` | gc/allchblk.c:521-555 | The front part goes to its own list, the rest stays, possibly on the wrong list; byte totals are conserved. |
| `BlockAlloc.GetFirstPart` | gc/allchblk.c:482-510 | The block loses exactly what was not asked for, which returns to the free lists. |
| `BlockAlloc.Seal` | gc/allchblk.c:777-790 | The block is in use at its object size and the heap is in order. |
| `BlockAlloc.DropBlock` | gc/allchblk.c:728-757 | The black-listed block is split into single blocks in use; nothing else changes. |
| `BlockAlloc.Consider` | gc/allchblk.c:640-726 | A block is taken only if it can serve the request and then at a usable start; it is skipped only if it cannot or the next one can. |
| `BlockAlloc.AllochblkNth` | gc/allchblk.c:631-812 | A search of one list fails only if no block on it can serve the request, despite the "next block is better" rule, drops and restarts. |
| `BlockAlloc.Allocate` | gc/allchblk.c:571-622 | The exact pass, the skipped start list and the later lists together miss no usable block. |
| `BlockAlloc.CompleteForExempt` | gc/allchblk.c:571-668 | For kinds exempt from black-listing, with splitting allowed everywhere, failure means exactly that no free block is large enough. |
| `BlockAlloc.BlockHeap.AddToHeap` | gc/alloc.c:897-944 | The region, but for the part next to address zero, joins the heap as free memory; the heap stays in order. |
| `BlockAlloc.BlockHeap.Allochblk` | gc/allchblk.c:571-812 | Fails exactly when no free block it may use suits; otherwise a block that was free is in use, not black-listed unless allowed, and only dropped black-listed blocks changed besides. |
| `BlockAlloc.BlockHeap.Freehblk` | gc/allchblk.c:814-876 | Exactly that block leaves the blocks in use, free bytes grow by its extent, the heap stays in order; freeing a free block is refused. |
| `BlockAlloc.ApplyToAllBlocks` | gc/headers.c:307-334 | Each block allocated at entry is visited exactly once even though the visitor frees and coalesces blocks during the walk. |
| `BlockAlloc.InUseDisjoint` | gc/allchblk.c:571-876 | Blocks in use never overlap. |
| `BlockAlloc.MemoryConserved` | gc/allchblk.c:571-876 | In every state GC_large_free_bytes and the extents of the blocks the client knows to be in use add up to the heap: no memory is lost. |
| `BlockAlloc.BytesTaken` | gc/allchblk.c:571-812 | So an operation that adds blocks in use takes exactly their extents off the free bytes, also if it drops blocks and restarts. |
| `BlockAlloc.Client.Step` | gc/allchblk.c:571-876 | Each operation of a client does exactly what its contract says, an allocation failing exactly when nothing suits and reporting the blocks it dropped, each of one block, black-listed and in use; and it is skipped exactly if the client may not ask for it. |
| `BlockAlloc.Run` | gc/allchblk.c:571-876 | For every list of operations there is one result each, consecutive states are related by what the operation does, and in every state the heap is in order and the blocks in use, disjoint, are exactly those the client was given or told to be dropped, at their sizes. |
| `Sweep.CountZero` | gc/reclaim.c:95-98 | A mark count of zero means exactly that no object of the block is marked. |
| `Sweep.Pop` | gc/malloc.c:101-132 | Exactly the first object leaves the free list; it was not held, belongs to the class, and is zero-filled where the kind promises so. |
| `Sweep.FreeSmall` | gc/malloc.c:389-446 | Exactly the freed object goes to the front of its free list; other memory is untouched. |
| `Sweep.LinkUnmarked` | gc/reclaim.c:113-186 | Exactly the unmarked objects of a block are linked in front of the free list, cleared if asked; marked ones are not touched. |
| `Sweep.SweepBlock` | gc/reclaim.c:212-253 | Sweeping keeps the invariant and adds exactly the unmarked objects; uncollectable blocks have all bits set again. |
| `Sweep.TakeQueued` | gc/reclaim.c:545-552 | A block taken off its queue was not swept before, and nothing in it is unmarked but held or free. |
| `Sweep.FoundExactly` | gc/alloc.c:1136-1172 | Sweeping for a class ends without a free object if and only if none was free and every object of its waiting blocks is marked. |
| `Sweep.ContinueReclaim` | gc/reclaim.c:536-557 | Lazy sweeping frees exactly the unmarked objects of the blocks it sweeps, all of which were waiting and none of which was swept before, until the list is not empty or the queue is; no waiting block is forgotten. |
| `Sweep.ReclaimAll` | gc/reclaim.c:563-609 | The same for all classes: only waiting blocks are swept, none twice, exactly their unmarked objects become free, and stopped or not no waiting block is forgotten, old ones to be ignored apart; unless stopped all queues end empty and every waiting block has been swept or, if old, discarded. |
| `Sweep.BuildList` | gc/new_hblk.c:107-168 | All objects of a new block are chained, last first, in front of the old list. |
| `Sweep.NewBlock` | gc/new_hblk.c:179-200 | A new block's objects are all free and nothing else changes. |
| `Sweep.SetMark` | gc/mark.c:200-210 | Setting a mark bit keeps the count and is safe at any time, also between sweeps. |
| `Sweep.LooksEmptyExactly` | gc/mark.c:162-182 | For every uncollectable block and all mark and clear calls since its header was set up: with one mark bit per granule GC_block_empty is right; with one per object the block looks empty if and only if exactly one object is marked, and with none marked it looks nearly full and is never freed or swept. |
| `Sweep.PerObjectCountTooLow` | gc/mark.c:162-182 | For every object size, freeing all objects of a new uncollectable block but the last makes the block, still in use, look empty in the MARK_BIT_PER_OBJ build. |
| `Sweep.ClearMarks` | gc/mark.c:184-197 | All mark bits but those of uncollectable blocks are cleared; safe for the free lists if no block waits to be swept. |
| `Sweep.ClearListMarks` | gc/alloc.c:658-691 | Exactly the objects on the free list lose their mark, and counts follow. |
| `Sweep.ClearAllListMarks` | gc/alloc.c:768-785 | After the loop over all lists, marked means marked before and not on a free list. |
| `Sweep.DropList` | gc/reclaim.c:461-470 | The list is emptied; only links of its own objects change. |
| `Sweep.ReclaimBlock` | gc/reclaim.c:263-323 | A block is freed exactly if it has no marked object, queued exactly if it is small and not nearly full, else left. |
| `Sweep.StartReclaim` | gc/reclaim.c:476-530 | All lists and queues are rebuilt that way and no unlisted memory is touched. |
| `Sweep.FinishCollection` | gc/alloc.c:700-843 | Marked objects not on free lists keep block, mark and contents; blocks without any are freed; the invariant holds again. |
| `Sweep.Malloc` | gc/malloc.c:101-132 | An allocated object is one that was not held, of the class asked for; held objects are untouched and other free objects stay free; a new block is taken, and without one the allocation fails, if and only if no object of the class is free or unmarked in a waiting block. |
| `Sweep.MallocLarge` | gc/malloc.c:41-95 | A large object has a new block to itself; uncollectable ones are marked, as in gc/mallocx.c:560-567. |
| `Sweep.FreeLarge` | gc/malloc.c:425-440 | The block is freed and other held objects are untouched. |
| `Sweep.EnterDropped` | gc/allchblk.c:728-757 | A block dropped by the block allocator becomes a pointer-free block with one unmarked object that is neither held nor free; nothing else changes, and the invariant holds, so the next collection frees it. |
| `Sweep.TryToCollect` | gc/alloc.c:345-412 | A stop-the-world collection, finished, stopped or abandoned after the bits were cleared, leaves the heap safe; after success exactly the marked and uncollectable held objects remain held, untouched; marked are then exactly those the marker marked and marked uncollectable ones, but for what was free or found free by sweeping first; and every block without any has been freed. |
| `Sweep.ObjectHeap.New` | gc/alloc.c:1136-1172 | The program gets an object it did not hold, zero-filled where promised, unless it needs a block and there is none. |
| `Sweep.ObjectHeap.Free` | gc/malloc.c:389-446 | A small object joins exactly its free list, a large one takes its block along; everything else held is untouched. |
| `Sweep.ObjectHeap.Collect` | gc/alloc.c:345-412 | The contract of TryToCollect for the heap as an object, with what it says of mark bits and remaining blocks. |
| `Sweep.ObjectHeap.SweepClass` | gc/reclaim.c:536-557 | Lazy sweeping at any time touches nothing held and nothing marked, and forgets no block. |
| `Sweep.ObjectHeap.Clear` | gc/alloc.c:305-320 | Clearing marks for an incremental collection is safe once no block waits. |
| `Sweep.ObjectHeap.Finish` | gc/alloc.c:700-843 | The end of a full or partial collection keeps exactly the marked held objects, with their contents; free lists are empty and no block without marks is left. |
| `Sweep.Program.Step` | gc/reclaim.c:476-609 | Each event does exactly what the operation promises and is skipped exactly if the program may not ask for it. |
| `Sweep.Run` | gc/reclaim.c:476-609 | For every list of allocations, dropped blocks, frees, writes, marking steps, sweeping and collections there is one result each, the objects handed out among them; consecutive states are related by what the event does, so each object handed out was not held; and the invariant holds in every state. |
| `HeapSteps.Apart` | gc/new_hblk.c:107-168 | No two objects of the heap overlap, whether in one block or in two. |
| `HeapSteps.ForgetDead` | gc/reclaim.c:263-323 | Giving up all unmarked objects changes no root and no reachable object. |
| `HeapSteps.FoundAgrees` | gc/malloc.c:101-132 | The address of an object just found was that of no object, a mark bit found set is one the marker allows for, and afterwards the marker's objects and marks are again the held objects and their mark bits. |
| `HeapSteps.EnteredKeeps` | gc/allchblk.c:728-757 | Entering dropped blocks changes no held object, no mark bit and no free list, and neither whether a class needs a new block. |
| `HeapSteps.DroppedAgree` | gc/allchblk.c:728-757 | After an allocation and the entering of what it dropped, the object heap knows every block in use but the one just allocated. |
| `HeapSteps.StoreWords` | gc/os_dep.c:2470-2474 | A write, seen by the allocator through the words the marker knows, keeps their pictures of every held object's memory in agreement. |
| `HeapSteps.LinkOfAddress` | gc/include/private/gc_priv.h:796 | Reading an object's address as a free-list link gives the object. |
| `HeapSteps.GrownAgree` | gc/mark.c:200-210 | Setting the bits of newly marked objects keeps blocks and marker in agreement and loses no object. |
| `HeapSteps.ClearedAgree` | gc/mark.c:249-260 | So does clearing all marks. |
| `HeapSteps.SweptAgree` | gc/reclaim.c:563-609 | So does sweeping, which sets bits only of what becomes free. |
| `HeapSteps.FinishShrinks` | gc/alloc.c:700-843 | At the end of a collection with up-to-date mark bits exactly the marked held objects stay held, exactly they are marked, and no block is without one. |
| `HeapSteps.CollectShrinks` | gc/alloc.c:345-412 | The same at the end of a collection that cannot be stopped, which leaves blocks waiting to be swept while it clears the marks. |
| `HeapSteps.ReturnedIsFree` | gc/allchblk.c:814-876 | All the memory of blocks that were given back belongs to free blocks. |
| `WholeHeap.ReachableIsHeld` | gc/alloc.c:286-473 | In every state of a run, also while a collection is in progress, everything reachable from the roots is held, in a block in use, and on no free list. |
| `WholeHeap.World.Make` | gc/malloc.c:101-132 | An allocation fails if and only if no object of the class is free, none can be swept and no free block suits; otherwise its address was that of no object, and a mark bit found set counts as a mark. The block allocator is called only if the class needs a block; it then takes at most the block handed out, and what it drops becomes known to the object heap. |
| `WholeHeap.World.Drop` | gc/malloc.c:389-446 | Exactly the freed object goes; a small one is on its free list, a large one's block has been given back and its bytes are free. |
| `WholeHeap.World.Finish` | gc/alloc.c:700-843 | A finished collection, partial or full, leaves the roots and everything reachable as they were and keeps every reachable object held with its memory untouched; after a full one nothing is held that no chain of possible references leads to; every block still in use holds a held object, all others, those dropped as black-listed among them, have been given back, and exactly their bytes became free. |
| `WholeHeap.World.StepStopped` | gc/alloc.c:514-614 | A stopped marking ends that way, or is abandoned and nothing is lost. |
| `WholeHeap.World.Proceed` | gc/alloc.c:345-473 | Every step of the control flow of collections is one of `Collections`, and unless it ends a collection nothing held and no block changes. |
| `WholeHeap.Run` | gc/alloc.c:286-473 | For every run of heap growth, allocation, lazy sweeping, freeing, writes and steps of collections, incremental or not, abandoned, resumed or finished, the block allocator, the object heap and the marker agree in every state: the blocks in use, dropped ones included, are exactly the object heap's, so none leaks; no object stays marked that is neither held nor free; the marker's and the allocator's pictures of memory agree about which held objects are zero after their first word; and consecutive states are related by what the step does. |
| `WholeHeap.ReachableStays` | gc/alloc.c:286-473 | What is reachable stays reachable however much is allocated and however collections start, go on and end, until the program itself writes or frees. |
| `HashTable.Grow` | gc/finalize.c:100-139 | A table of twice the size represents the same map. |
| `HashTable.Find` | gc/finalize.c:170-180 | Looking in the chain of the key finds it exactly if the map has it. |
| `HashTable.Put` | gc/finalize.c:170-205 | The table represents the map with the key set. |
| `HashTable.Remove` | gc/finalize.c:207-239 | The table represents the map without the key. |
| `HashTable.Filter` | gc/finalize.c:486-518 | A walk that unlinks rejected entries leaves exactly the accepted ones and lists the others once each. |
| `Finalize.MarkFO` | gc/include/private/gc_pmark.h:436-444 | Whatever the pushed objects lead to over words that could be references is marked, and nothing else; after an overflow the object itself is marked too and everything marked and the roots are scanned again. |
| `Finalize.MarkFromFinalizable` | gc/finalize.c:520-534 | All that any unmarked finalizable object leads to through its mark procedure is marked, and nothing else, overflow or not; references are whatever the conservative scan takes for one. |
| `Finalize.ClearLinks` | gc/finalize.c:494-518 | Exactly the links to unmarked objects leave the table, and exactly their words, in objects or roots, become 0 before anything more is marked. |
| `Finalize.ClearingKeepsClosed` | gc/finalize.c:494-518 | Clearing only removes references, so marks that accounted for all references, or all words, still do. |
| `Finalize.ReferencesStayExactly` | gc/finalize.c:494-518 | Clearing leaves all genuine references in marked objects if and only if each link on one belongs to an object that is still marked. |
| `Finalize.ClearingKeepsReachable` | gc/include/gc.h:674-690 | If a link that holds a genuine reference holds one to its own object, what is reachable from roots or marked objects is the same after links have disappeared. |
| `Finalize.ClearingKeepsRoots` | gc/include/gc.h:674-690 | Nor do the roots then lose a reference. |
| `Finalize.ForeignLinkCuts` | gc/finalize.c:494-518 | A link on a word that refers to another object can cut off an object in use. |
| `Finalize.QueuedIsUnreachable` | gc/finalize.c:486-572 | A queued object is unreachable from the roots and from every marked object and, once links have disappeared, from every unmarked finalizable object, itself included, through its mark procedure. |
| `Finalize.QueuedExactly` | gc/finalize.c:494-572 | Without overflow an unmarked finalizable object is queued if, once links have disappeared, no words that could be references lead to it from an unmarked finalizable object, and only if, when the marks account for all words. |
| `Finalize.AllBrokenExactly` | gc/include/gc.h:674-690 | No words lead to an object once links have disappeared if and only if every chain of words that led to it before goes through one of those links. |
| `Finalize.BrokenCyclesAreFinalized` | gc/include/gc.h:674-690 | An unmarked finalizable object is queued if every chain of words to it from an unmarked finalizable object, each of its cycles among them, goes through a link that disappears, and only if, when the marks account for all words. |
| `Finalize.QueuedSurvives` | gc/finalize.c:243-292 | With an ordered or ignore-self finalizer the object and all it reaches once links have disappeared end marked. |
| `Finalize.MarksClosedAgain` | gc/finalize.c:486-572 | Without unordered finalizers the marks are closed over the heap that finalization leaves. |
| `Finalize.UnorderedLosesReferent` | gc/finalize.c:276-280 | With an unordered finalizer an object that the queued one refers to is left unmarked. |
| `Finalize.KeepsReferentsExactly` | gc/finalize.c:243-292 | A mark procedure keeps what queued objects reach, for all heaps, if and only if it is not the null one. |
| `Finalize.Finalization.RegisterLink` | gc/finalize.c:147-205 | The link table becomes the map with the link set, in all outcomes as the code reports them. |
| `Finalize.Finalization.UnregisterLink` | gc/finalize.c:207-239 | The link is removed if present; called before any registration the code faults. |
| `Finalize.Finalization.RegisterFinalizer` | gc/finalize.c:301-416 | The finalizer table becomes the map with the entry set, replaced or removed, and the old one is returned. |
| `Finalize.Finalization.Run` | gc/finalize.c:486-646 | Links to objects unmarked at the start, and only they, are zeroed, in the tables as in memory; marking then sees the zeroed words; finalizable objects still unmarked move to the queue; nothing is marked that no unmarked finalizable object leads to; dangling links go; tables still represent maps. |
| `FinalSweep.ClosedInBytes` | gc/alloc.c:560-614 | What a finished marker promises, that no reference in a marked object or root leads to an unmarked one, is what the results about finalization rely on, in bytes instead of words. |
| `FinalSweep.SurvivesExactly` | gc/alloc.c:740-800 | A held object survives the sweep that follows finalization exactly if finalization left it marked, at the same place and with its words as the links leave them. |
| `FinalSweep.ReachableSurvives` | gc/finalize.c:486-572 | So everything the program could reach before links were cleared survives, and so does every object with a finalizer, and all that ordered objects in the queue lead to. |
| `FinalSweep.BlocksHoldSurvivors` | gc/reclaim.c:263-323 | Each block left after it holds a survivor. |
| `FinalSweep.LinksSpeakOfSurvivors` | gc/finalize.c:494-646 | Afterwards each link belongs to a survivor and lies in a survivor or outside the heap. |
| `FinalSweep.FinalizersSpeakOfSurvivors` | gc/finalize.c:535-572 | Every object that keeps its finalizer is a survivor. |
| `FinalSweep.QueueSpeaksOfSurvivors` | gc/finalize.c:535-572 | So is everything in the queue, if what was queued before is a root. |
| `FinalSweep.FinishCollection` | gc/alloc.c:700-843 | The end of a collection, finalization and then the sweep, as one operation on the tables and the object heap, with all of these results. |
| `Typed.ScanBitmap` | gc/mark.c:697-729 | The marker's bitmap case visits exactly the words whose bit is set. |
| `Typed.ScanExtended` | gc/typd_mlc.c:381-416 | The chained extended-descriptor procedure visits exactly the words named by all its entries. |
| `Typed.StoredVisits` | gc/typd_mlc.c:111-162 | A bitmap stored in the table names exactly its set bits. |
| `Typed.StoredKept` | gc/typd_mlc.c:111-162 | Later additions do not change what an earlier descriptor names. |
| `Typed.AddExtDescriptor` | gc/typd_mlc.c:111-162 | A bitmap of any length is stored in new entries, unless the table cannot grow. |
| `Typed.BuildBitmap` | gc/typd_mlc.c:561-570 | The shifted word holds the bits in order and the bitmap tag. |
| `Typed.MakeDescriptor` | gc/typd_mlc.c:534-579 | The words visited are exactly the set bits, for any bitmap length; a superset within the length if descriptor space runs out. |
| `Typed.DoubleDescrMeaning` | gc/typd_mlc.c:172-179 | The doubled descriptor names the words of two elements and keeps its tag. |
| `Typed.RepeatedMeaning` | gc/typd_mlc.c:186-205 | The recursive reading of "n consecutive elements" is the one by element number. |
| `Typed.SimpleIsUnreachable` | gc/typd_mlc.c:248-262 | The SIMPLE case after the recursion cannot occur. |
| `Typed.ArrayDescriptorExact` | gc/typd_mlc.c:204-297 | For every count, word-multiple size and confined descriptor the optimised descriptor names exactly the words of the elements and has size n * size. |
| `Typed.SoundExactlyIfSequencesAllocated` | gc/typd_mlc.c:299-316 | The result is free of null pointers if and only if every sequence descriptor could be allocated, which the code does not check. |
| `Typed.UncheckedFailure` | gc/typd_mlc.c:236-290 | An input for which a failed allocation yields a null complex descriptor. |
| `Typed.PushComplex` | gc/typd_mlc.c:440-493 | The pushed entries visit exactly the words named and the stack limit is never passed, also on failure. |
| `Typed.ArrayMarkProc` | gc/typd_mlc.c:496-532 | Exactly the named words and the descriptor are visited, or the whole object, a superset; the limit is kept. |
| `Exclusions.InsertAdds` | gc/mark_rts.c:399-430 | Inserting a range adds exactly it to a sorted table, if and only if it is given in order. |
| `Exclusions.ExtendAdds` | gc/mark_rts.c:414-418 | Extending a range backwards adds exactly the new part, if and only if it is given in order. |
| `Exclusions.Table.NextExclusion` | gc/mark_rts.c:380-397 | The binary search returns the first range that ends after the address. |
| `Exclusions.Table.Exclude` | gc/mark_rts.c:399-430 | An accepted call keeps the table sorted and adds exactly its range, if and only if start <= finish; on a full table the shift runs over the end exactly if the range goes before another. |
| `Exclusions.Table.PushWithExclusions` | gc/mark_rts.c:432-449 | The pushed ranges are exactly the segment minus all exclusions, ascending and not empty. |
| `SizeMap.ChosenBounds` | gc/misc.c:186-200 | Rounding, capping and filling the block never give too few granules or more than the maximum. |
| `SizeMap.Map.constructor` | gc/misc.c:138-155 | Small sizes map to their rounded-up granules. |
| `SizeMap.Map.FirstEmpty` | gc/misc.c:175-182 | The low-limit search stops at or before the requested entry. |
| `SizeMap.Map.Extend` | gc/misc.c:159-203 | The requested entry gets filled, filled entries stay filled, and each gives room for its request and the extra byte within the maximum. |

## Left out

- Platform code: registers, signals other than as steps of the handshake, dynamic libraries, page protection, memory mapping.
- USE_MUNMAP, GC_find_leak, debugging, statistics, back-pointer and checksum code.
- Failure to allocate block headers and bottom indices, wrapped addresses, sizes of half the address space and more, MAX_HEAP_SECTS.
- Clocks and heuristics: when to collect, to stop or to split is a parameter.
- The marker's objects have length descriptors; bitmap and procedure descriptors are treated in `Typed`, and interior pointers, resolved by `BlockIndex.Index.Base`, are assumed to be resolved already.
- `Marker.Collector.PushRoots` pushes whole static segments, as GC_push_selected does when their pages count as dirty, which pages outside the heap always do; mark bits of free-list header objects are not modelled.
- A heap write and its GC_dirty call are one step of the mutator.
- Parallel marking and the handshake assume sequentially consistent memory; signal retry, lost signals and ESRCH are not modelled, nor is the hashing of the thread table.
- `ParallelMark` treats root segments as objects marked from the start.
- Promotion of black lists and the recording of false pointers.
- `Collections` leaves GC_dont_gc out; whether GC_should_collect says so, and whether the collection is to be full, are parameters of the event; the sweeping in GC_finish_collection appears as events that release objects.
- In `Sweep` alone, blocks and the objects a collection marks are parameters; `WholeHeap` supplies them from the block allocator and the marker.
- In `WholeHeap` a stopped marking that finishes and GC_finish_collection are one step, and the blocks' mark bits are set after the marker's step; in a collection that cannot be stopped they are cleared only then. Finalization is not part of it: `FinalSweep` joins it to the marker and to the sweep, and takes as given that the mark bits agree with the marker.
- In `WholeHeap` the marker knows held objects only. That a false pointer may also mark a free object in a block not yet swept, which keeps it from use until marks are cleared, and if it is uncollectable for good, is possible in `Sweep.Run` only; so is one to a block dropped as black-listed.
- GC_build_fl's four specialised forms for small sizes, which build the same list with unrolled loops.
- Chains of `HashTable` are sequences, so the relinking of `next` fields within a chain is not modelled; neither are the mark bits of table entries.
- Java-style and "unreachable" finalization, running of finalizers.
- `Typed` treats length descriptors of whole words only; growth of the descriptor table by two threads at once is left out.
- Thread-local allocation, gcj objects, GC_malloc_many, realloc and the rest of the allocation interface.
