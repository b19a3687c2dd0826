# Verification of the HashLink runtime with hlmod's Python extension

This project models the parts of the runtime whose correctness is hardest to see from the code and
proves what they are for. All of it is Dafny; `dafny verify dfyconfig.toml` checks the whole project.

**The garbage collector**, in layers that are composed:

* `PageModel`, `PageAllocator`, `SizeClasses`: a page as free runs, size table and mark-bit slice; the
  class `Page` works on the arrays and the run list as the source does, and is proved against the
  page as a value. The lazy sweep, both allocators, both block lookups and the finalizer scan.
* `HeapGraph`, `Marking`, `ForeignRoots`: the mark stack with its sentinel, the serial marker, and the
  whole mark phase with foreign roots (native pass, one trace a root on a cleared bitmap, restore,
  second pass), against reachability in a graph of blocks.
* `ParallelMark`, `ParallelMarkRuns`, `ParallelMarkEnds`, `ParallelPasses`: the marker threads, the shared
  mask, the hand-over of stack parts and the semaphores as interleaved steps; every run is exact and
  ends, and both passes of a mark phase leave the bitmaps of the serial ones.
* `HeapRuns`, `BlockLookup`: runs of allocations, stores, sweeps and collections over the page values
  above, and how the lookups of a page turn addresses into the words of the marking model.
* `PeerGraph`, `PythonPeers`, `PeerCycles`: the registry of Python peers and roots, why Python's collector
  then sees the object graph of both languages, and what holds over any run of collections.
* `StopTheWorld`: the global lock, the blocking counters and the stopping flag as interleaved steps.

**Secondary parts**, each on its own:

* `JitModel`, `JitMeaning`, `JitRuns`, `JitCompiler`: the register cache of the JIT for 32-bit integer
  code with jumps. The class `JitCtx` emits as the source does; the compiled function returns exactly
  what the bytecode returns, in instructions the processor has.
* `JsonText`, `JsonReading`, `JsonStrings`, `JsonNumbers`, `JsonGrammar`, `JsonRoundTrip`, `JsonPrinter`,
  `JsonParser`, `JsonList`: cJSON's printer over a real buffer and its parser over a cursor; the texts of
  RFC 8259 as syntax trees, and that the parser accepts exactly these; the round trip; and the
  sibling-list editors over linked nodes.
* `UtHash`, `UtSort`: uthash over linked items and buckets, and its in-place merge sort.
* `ModSorter`: the load order of mods.
* `Sha256`, `Sha256Words`, `Sha256Constants`, `Sha256Answer`: streaming SHA-256 against FIPS 180-2, what
  its functions and constants are on integers, and the published digest of "abc".
* `Words`: 32-bit words as numbers, for the JIT and SHA-256.

## What the proofs found

* `gc_alloc_var` moves `current` whenever the run it used is drained, whichever run that is. Free blocks
  then stay out of reach until the next sweep, exactly when the drained run is not the current one and
  the current one still has blocks (`PageModel.TakeVarForgets`); the sweep recovers all of them
  (`PageModel.SweepRecoversAll`).
* A finalizer request of a megabyte or more, once rounded to words, gets a page of finalizer kind without
  a size table (`SizeClasses.FinalizerTableIff`, `SizeClasses.MegabyteFinalizer`). The finalizer scan of
  the next collection reads that table and faults (`PageAllocator.Page.CallFinalizers`). Over any run the
  scan finds every table it reads exactly if no such request has been made; after one no collection
  completes (`HeapRuns.ScanReadsTablesIff`, `HeapRuns.LargeFinalizerRun`).
* The growth rule can make a page of exactly 65536 blocks (`SizeClasses.FullRangePage`). The 16-bit run
  length of a new page is then stored as 0 exactly if the page has no size table, which takes blocks of
  8, 16 or 32 bytes; the allocation that creates the page takes its first block in 16-bit arithmetic,
  which leaves the right position and length in every case (`SizeClasses.NewPageRun`). The page proofs
  assume fewer than 65536 blocks.
* A trace of a foreign root resolves the word as an interior pointer, the pass that then marks it as the
  start of a block. What a trace reports is certain to be marked exactly when the word is a block start
  (`ForeignRoots.TraceWithinMarksIff`).
* For the same reason a Python handle keeps what its word leads to alive in the HL heap exactly when the
  word is a block start (`PeerCycles.HandleMarksIff`).
* The JIT's `load` emits no move when the value sits in another register
  (`JitCompiler.LoadIsCompleteIff`); its callers never ask for that.
* Write-through makes dropping a binding sound, but a jump may only land where every binding assumed
  there is in force (`JitModel.LandingSoundIff`). Forward landings are cleared by the compiler; backward
  jumps rely on the bytecode convention that loops start with OLabel, which is a condition of the
  compiler's theorem.
* `cJSON_PrintPreallocated` succeeds exactly when the buffer is two bytes longer than the text (and every
  number fits the printer's own buffer); its documentation recommends five spare bytes.
* cJSON does not refuse a `\u` whose four characters are not all hexadecimal digits: it stands for a NUL
  (`JsonStrings.MisspeltIsNul`, `JsonStrings.ParseHex4Iff`). In texts without one the parser accepts
  exactly the grammar of RFC 8259, except that every byte up to a space counts as a blank, control
  characters may stand in strings as they are, and what a number may look like is up to the C library
  (`JsonGrammar.AcceptsIff`, `JsonStrings.StringIff`).
* `sha256_update` counts in 32 bits. Its loop ends exactly for lengths below 2^32
  (`Sha256.UpdateEndsIff`); at 2^32 the counter comes back to 0 and starts over (`Sha256.UpdateOfAll32`).
  What any number of rounds feeds to the context is `Sha256.Context.UpdateRounds`; the contract of a whole
  update is for the lengths that end.

## Model

| member | source | states |
|---|---|---|
| PageAllocator.Page.constructor | src/allocator.c:152-187 | a new page is one run from behind its size table to its end, and its table is empty |
| PageAllocator.Page.SweepBlock | src/allocator.c:218-233 | the sweep steps over a whole extent (or one block) and clears the head of a dead one, leaving the rest of the table as it was |
| PageAllocator.Page.RebuildRuns | src/allocator.c:191-234 | the two-cursor walk ends; the new runs are separated, avoid marked extents and cover exactly the old free blocks and every block outside a marked extent |
| PageAllocator.Page.Flush | src/allocator.c:191-277 | the page afterwards is valid and is the swept form of the page before |
| PageAllocator.Page.AllocFixed | src/allocator.c:284-300 | after settling an owed sweep, hands out the block at the current run, or -1 exactly when the page has no free block |
| PageAllocator.Page.FindRun | src/allocator.c:335-347 | finds the first run from the current one on that is long enough |
| PageAllocator.Page.AllocVar | src/allocator.c:326-383 | after settling an owed sweep, takes n blocks from the first run that fits, enters the extent and marks its head if there is a bitmap; -1 if none fits |
| PageAllocator.Page.EnterExtent | src/allocator.c:372-383 | writes exactly the extent's table entries and its mark bit |
| PageAllocator.Page.GetBlockId | src/allocator.c:551-572 | accepts an address exactly if it is the start of an allocation |
| PageAllocator.Page.GetBlockInterior | src/allocator.c:575-593 | maps an address to the allocation that holds it, and to -1 exactly if none does |
| PageAllocator.Page.CallFinalizers | src/allocator.c:508-521 | calls the finalizers of exactly the unmarked heads that have one, once each in block order, and clears exactly the unmarked heads; faults at its first block exactly if the page has no size table |
| PageAllocator.Page.BeforeMark | src/allocator.c:533-535 | a cleared slice of the bitmap and an owed sweep, nothing else |
| PageAllocator.Page.HasNoMarks | src/allocator.c:415-434 | the test for an empty page is true exactly if no head is marked |
| PageAllocator.TakeOldRun | src/allocator.c:205-217 | meeting an old run at its start, the walk takes it over and meets the next one at its start |
| PageAllocator.SweepExtent | src/allocator.c:218-233 | stepping over an extent keeps what the walk has built: dead blocks are covered, marked ones avoided |
| PageAllocator.RecordAdds | src/allocator.c:206-211 | noting free blocks adds exactly those and keeps the runs separated |
| PageModel.ExtentsDisjoint | src/allocator.c:551-593 | allocations of a valid page that share a block are the same allocation |
| PageModel.ExtentsNotFree | src/allocator.c:335-383 | no allocation of a variable page overlaps a run that can still be used |
| PageModel.SweepKeepsMarked | src/allocator.c:191-277 | a sweep keeps every marked allocation: head, size, and none of its blocks becomes free |
| PageModel.SweepRecoversAll | src/allocator.c:191-277 | after a sweep a block is free exactly if no allocation holds it |
| PageModel.TakeFixedOk | src/allocator.c:289-297 | a fixed allocation takes the least free block and frees or loses no other |
| PageModel.TakeFree | src/allocator.c:335-347 | exactly which blocks stop being free when n blocks are taken from run k |
| PageModel.TakeVarFree | src/allocator.c:335-383 | every block of a new extent was free before and is not after |
| PageModel.TakeVarHeads | src/allocator.c:372-383 | a new extent is recognised with its size, every other extent stands as it was and is disjoint from it |
| PageModel.TakeVarRuns | src/allocator.c:335-347 | the runs stay sorted, inside the page, and clear of all extents, the new one included |
| PageModel.TakeVarValid | src/allocator.c:322-386 | a variable allocation keeps the page valid |
| PageModel.TakeVarForgets | src/allocator.c:335-345 | free blocks go missing exactly when a run other than the current one is drained while the current one has blocks left |
| PageModel.DeadClearedOk | src/allocator.c:501-525 | after the finalizer scan a lookup recognises exactly the marked allocations and nothing has become free |
| PageModel.AddressUnique | src/allocator.c:551-593 | at most one allocation holds an address, so both lookups agree on block starts |
| SizeClasses.Classify | src/allocator.c:388-413 | the class of a request |
| SizeClasses.RequestsAreServed | src/allocator.c:388-413 | every request is served with at least what it asked for, wasting less than a block; an extent has at most 254 blocks; a request is large exactly from a megabyte on, and below that a finalizer request goes to a page with a size table |
| SizeClasses.ClassIff | src/allocator.c:388-413 | which class serves a request: fixed blocks up to 40 bytes without a finalizer, then blocks of 8 up to 2032 bytes, of 64 up to 16256, of 8192 below a megabyte, and a page of its own from there; how much each hands out |
| SizeClasses.FinalizerTableIff | src/allocator.c:391-409 | the page of a finalizer request has a size table exactly if the request stays below a megabyte when rounded |
| SizeClasses.MegabyteFinalizer | src/allocator.c:391-396 | a finalizer request of a megabyte gets a page without a table |
| SizeClasses.GrowPage | src/allocator.c:128-146 | the growth loop computes the grown size |
| SizeClasses.GrownBlocks | src/allocator.c:138-164 | growing never passes 65536 blocks, so the fatal check is not reached for small blocks |
| SizeClasses.FullRangePage | src/allocator.c:138-164 | from which page count on a new page has exactly 65536 blocks |
| SizeClasses.NewPageRun | src/allocator.c:138-181 | when a new page's run length is stored wrong, for every request and page count, and that the allocation creating the page leaves position and length right |
| SizeClasses.PageSizeFor | src/allocator.c:350-353 | the doubling loop gives a page size above the request |
| SizeClasses.DoubledIs | src/allocator.c:350-353 | that size is the first of the doublings of 65536 that is large enough |
| SizeClasses.FreshPageHasRoom | src/allocator.c:347-359 | a request no page can take fits on the page created for it, behind its size table |
| SizeClasses.FirstBlockIff | src/allocator.c:164-179 | the first block is the least one that starts at or behind the end of the size table, rounded up to a cache line |
| SizeClasses.BlocksAreBehindTable | src/allocator.c:128-187 | on every new page, for every request and page count, no block handed out reaches into the size table; without a table on the page the first block is block 0 |
| HeapGraph.ReachLeast | src/gc.c:728-803 | reachability is the least set closed under scanning that contains the roots |
| Marking.MarkStack.Grow | src/gc.c:635-652 | growing keeps the pending blocks, with room and the sentinel in place |
| Marking.MarkStack.Push | src/gc.c:622-627 | pushes one block on top of what was pending |
| Marking.MarkStack.Pop | src/gc.c:731-745 | pops the newest block, or the sentinel exactly if nothing is pending |
| Marking.Trace.Visit | src/gc.c:603-615 | records the mark byte and the visited block |
| Marking.MarkBlock | src/gc.c:748-800 | sets the bit; a block is reported and, if it holds pointers, pushed exactly when the bit was clear |
| Marking.ScanBlock | src/gc.c:745-800 | scanning a popped block follows all its words, keeps the marking invariant, and either marks something new or leaves the stack as it was |
| Marking.FlushMark | src/gc.c:728-803 | the loop ends with an empty stack and the marking invariant |
| Marking.MarkedExactly | src/gc.c:728-803 | with nothing pending and the roots marked, the marked blocks are exactly those the roots reach |
| ForeignRoots.MarkWords | src/gc.c:805-823 | conservative words mark the allocations they point into |
| ForeignRoots.MarkSlots | src/gc.c:855-868 | the root slots of one kind mark the blocks they start |
| ForeignRoots.UndoTrace | src/gc.c:911-911 | zeroing the recorded bytes gives back an all-zero bitmap |
| ForeignRoots.TraceRoot | src/gc.c:906-911 | tracing one root reports every allocation it reaches exactly once and leaves the bitmap clear |
| ForeignRoots.TraceDeferred | src/gc.c:904-912 | one exact report for each deferred root |
| ForeignRoots.NativePass | src/gc.c:854-881 | the first pass, marking with one thread, marks exactly what the native roots reach |
| ForeignRoots.TracePass | src/gc.c:898-919 | the bitmap after all traces is the bitmap before them |
| ForeignRoots.ForeignPass | src/gc.c:921-935 | marking the deferred roots on top, with one thread, gives exactly what all roots reach |
| ForeignRoots.GcMark | src/gc.c:841-938 | with one marking thread (ParallelPasses.PassesMarkExactly has any number): native liveness is observed exactly, each trace is exact, and the final marks are exactly what all roots reach |
| ForeignRoots.PassesAgreeWithOne | src/gc.c:854-936 | the passes mark what one pass over all roots would |
| ForeignRoots.TraceOfInteriorPointer | src/gc.c:805-823 | a heap in which an interior root is traced but not marked |
| ForeignRoots.TraceWithinMarksIff | src/gc.c:805-823 | traces stay within the final marks in every heap exactly when the word is a block start |
| ParallelMark.SendKeepsPending | src/gc.c:688-724 | handing out part of a stack neither loses nor duplicates a block |
| ParallelMark.MovesKeepPending | src/gc.c:654-803 | no step but following a word and finishing a block changes what is pending |
| ParallelMark.Claim | src/gc.c:670-686 | the thread whose test-and-set finds the bit clear, and only it, has the block to do |
| ParallelMark.StepKeepsMarkInv | src/gc.c:635-803 | every step of every thread keeps: each marked block is done or pending in exactly one place, and marks are sound |
| ParallelMarkRuns.StepKeepsCtlInv | src/gc.c:688-803 | every step keeps who owns which marker, stack and wake-up |
| ParallelMarkRuns.SendTargetIsEmpty | src/gc.c:688-724 | a share is only handed to a marker whose stack is empty, never to the sender |
| ParallelMarkRuns.DistributionIsComplete | src/gc.c:886-888 | after the first distribution nothing is left on the collector's stack |
| ParallelMarkRuns.NothingPending | src/gc.c:890-896 | an empty mask at the collector's check means nothing is pending anywhere |
| ParallelMarkRuns.WaitEndsExact | src/gc.c:890-896 | when the wait is over the marks are exactly what the roots reach |
| ParallelMarkRuns.SomeoneMoves | src/gc.c:1031-1040 | until the collector has finished some thread can move: no wake-up is lost |
| ParallelMarkEnds.StepLowers | src/gc.c:728-803 | every step lowers a measure led by the number of unmarked blocks |
| ParallelMarkEnds.InitInv | src/gc.c:880-891 | both phases start in a state that satisfies the invariants |
| ParallelMarkEnds.EveryRunMarksExactly | src/gc.c:635-803 | in every state of every interleaving no block is pending twice and none is lost; where the wait is over the marks are exact; elsewhere a step is possible |
| ParallelMarkEnds.EveryRunEnds | src/gc.c:635-803 | there is no infinite run |
| ParallelPasses.FirstIsInit | src/gc.c:853-886 | pushing the native roots leaves a start state of the parallel marker |
| ParallelPasses.SecondIsInit | src/gc.c:921-935 | where the first pass has ended, pushing the deferred roots leaves a start state for the second |
| ParallelPasses.PassesMarkExactly | src/gc.c:841-936 | for any number of marker threads and every interleaving, both passes end with the bitmaps of the serial ones, and until then some thread can move |
| HeapRuns.StepKeepsInv | src/allocator.c:279-413 | allocations, sweeps, new pages and collections keep the heap invariant |
| HeapRuns.CollectKeepsInv | src/gc.c:841-938 | a collection keeps the heap invariant, released pages and finalizers included |
| HeapRuns.KeptAllocationsAreSafe | src/allocator.c:191-448 | in every state of every run an allocation reachable at each collection so far keeps its block and size, and no later allocation overlaps it |
| HeapRuns.FinalizersCalledAtMostOnce | src/allocator.c:501-525 | over every run, large finalizer requests included, no finalizer is called twice, and none for an allocation reachable at every collection |
| HeapRuns.FinalizerRunsWhenFirstUnmarked | src/allocator.c:501-572 | a finalizer runs exactly in the first completed collection that leaves its allocation unmarked; afterwards the head is only recognised if a later allocation starts there |
| HeapRuns.OccupantIsKept | src/allocator.c:501-525 | what a lookup finds on a finalizer page has been reachable at every collection |
| HeapRuns.MarksAreHeads | src/gc.c:748-823 | every set mark bit belongs to a block a lookup recognises |
| HeapRuns.ReleasedIff | src/allocator.c:426-448 | a collection releases a page exactly if no block on it is reachable |
| HeapRuns.SpaceComesBack | src/allocator.c:191-277 | on a page with a size table that stays, the sweep after a collection makes a block available exactly if it is not part of a reachable allocation |
| HeapRuns.HistoryGrows | src/allocator.c:501-525 | no step removes an allocation or a finalizer call from the history, or makes a lost allocation kept again |
| HeapRuns.ScanReadsTablesIff | src/allocator.c:503-509 | over every run, the finalizer scan finds a table on each page exactly if no finalizer request of a megabyte or more has been made |
| HeapRuns.LargeFinalizerRun | src/allocator.c:391-396 | a run with such a request, after which no collection completes |
| BlockLookup.Resolve | src/allocator.c:551-593 | the two lookups of a page as one word of the marking model |
| BlockLookup.ResolvedWordOk | src/allocator.c:551-593 | a resolved word lies in the heap, both lookups agree where both accept it, and what they accept is a recognised block |
| PeerGraph.ViewIsCombined | src/hlmod_python.c:332-337 | what Python's collector reaches is reachable in the combined graph |
| PeerGraph.CombinedIsView | src/hlmod_python.c:332-337 | what is reachable in the combined graph is visible to Python's collector |
| PeerGraph.CollectorSeesCombinedGraph | src/hlmod_python.c:152-372 | after a refresh and a release both reachabilities are the same |
| PythonPeers.ReleasedMembers | src/hlmod_python.c:317-330 | releasing keeps exactly the peers that are not dead |
| PythonPeers.ReleaseSettles | src/hlmod_python.c:317-330 | releasing what is not natively live leaves exact edge lists and exactly the natively reachable peers held |
| PythonPeers.DeathIsReal | src/hlmod_python.c:307-315 | a peer reported dead was unreachable from every root |
| PythonPeers.Registry.ObserveNative | src/hlmod_python.c:301-305 | notes for each live peer whether its block is natively marked |
| PythonPeers.Registry.TraceForeign | src/hlmod_python.c:152-182 | appends exactly the live peers among the reported blocks to the snapshot |
| PythonPeers.Registry.Snapshot | src/hlmod_python.c:152-182 | one exact segment of the snapshot for each handle |
| PythonPeers.Registry.Finalize | src/hlmod_python.c:307-315 | exactly the peers whose finalizer block is unmarked become dead |
| PythonPeers.Registry.EdgeList | src/hlmod_python.c:218-240 | the list holds exactly the objects that the segment's peers still yield |
| PythonPeers.Registry.ReleasePeers | src/hlmod_python.c:317-330 | the loop leaves the released list |
| PythonPeers.Registry.Refresh | src/hlmod_python.c:184-257 | a refresh leaves every edge list exact and observes liveness and death as the collection found them |
| PythonPeers.Registry.GcStart | src/hlmod_python.c:356-365 | the start phase settles the registry; a nested start changes nothing |
| PythonPeers.Registry.Retain | src/hlmod_python.c:345-354 | outside a collection every object still alive is held again; inside one nothing changes |
| PythonPeers.Registry.GcStop | src/hlmod_python.c:366-372 | the stop phase ends the collection with every live object held |
| PythonPeers.ListIsExact | src/hlmod_python.c:218-257 | a list made from an exact segment is exact for what its handle leads to and what is still alive |
| PythonPeers.CollectorSparesReachable | src/hlmod_python.c:332-372 | nothing either language can reach is dropped between the phases, and no dropped object is held |
| PythonPeers.Registry.Bind | src/hlmod_python.c:611-620 | registers an instance with its object held |
| PeerCycles.PathSurvives | src/hlmod_python.c:356-365 | what both languages reach before a collection they still reach after its start phase, and what of it lies in HL is marked |
| PeerCycles.KeptThrough | src/hlmod_python.c:345-372 | a peer reachable in the combined graph comes out of a collection registered, alive and held |
| PeerCycles.ReachablePeersStay | src/hlmod_python.c:345-372 | over every run of registrations and collections, a peer reachable at each collection is still registered, its object alive and held |
| PeerCycles.HandleMarksIff | src/hlmod_python.c:152-182 | what a handle leads to is marked in every heap exactly when its word is a block start |
| StopTheWorld.StepKeepsInv | src/gc.c:250-376 | every step of every thread keeps the protocol's invariant |
| StopTheWorld.WorldIsStopped | src/gc.c:360-376 | while a thread is between the two stop calls it alone holds the lock and no other registered thread runs HL code or can get back to it |
| StopTheWorld.WaitersAreCounted | src/gc.c:250-264 | a thread waiting for the global lock is counted as blocking |
| StopTheWorld.SpunOnThreadMoves | src/gc.c:1109-1141 | the thread the collector spins on can move, and every move outside HL code brings it closer to being counted |
| StopTheWorld.SomeoneMoves | src/gc.c:250-376 | the protocol never deadlocks |
| StopTheWorld.ScopesAreCounted | src/gc.c:1109-1127 | whatever other threads do, a thread that enters and leaves blocking scopes counts exactly those it has open |
| StopTheWorld.BalancedScopes | src/gc.c:1109-1127 | as many scopes left as entered: the thread is where it was; from the outermost it goes back to HL code if the stopping flag is clear, and to the lock if it is set |
| JitModel.LandingSoundIff | src/jit.c:4903-4906 | a landing is sound in every state exactly when each binding assumed there is in force at the jump |
| JitMeaning.EvalMeans | src/jit.c:1698-1703 | arithmetic is that of integers modulo 2^32, the logical operations work on each bit |
| JitMeaning.HoldsByFlags | src/jit.c:1941-1982 | a condition holds of two numbers, signed or unsigned, exactly if the flags of their comparison say so |
| JitCompiler.JitCtx.AllocReg | src/jit.c:913-946 | takes an unlocked scratch register, evicting only if none is free; it cannot run out |
| JitCompiler.JitCtx.Scratch | src/jit.c:985-991 | forgets exactly the binding of one register |
| JitCompiler.JitCtx.Load | src/jit.c:995-1006 | binds the register and emits the load exactly if the value was in no register |
| JitCompiler.LoadIsCompleteIff | src/jit.c:995-1006 | the load is right in every state exactly when the value was uncached or already there |
| JitCompiler.JitCtx.RegBind | src/jit.c:1026-1031 | moves a binding, keeping bindings one-to-one |
| JitCompiler.JitCtx.AllocCpu | src/jit.c:1033-1048 | puts a value in a locked register, loading it if asked to |
| JitCompiler.JitCtx.Copy | src/jit.c:1122-1150 | the moves between registers and frame slots, two slots going through a register |
| JitCompiler.JitCtx.Store | src/jit.c:1242-1255 | writes through to the frame slot and rebinds, dropping a stale copy |
| JitCompiler.JitCtx.OpMov | src/jit.c:1281-1292 | the code emitted for a move carries agreement before it to agreement after it |
| JitCompiler.JitCtx.StoreConst | src/jit.c:1302-1311 | the code emitted for a constant carries agreement over, zero by exclusive or included |
| JitCompiler.JitCtx.OpBinop | src/jit.c:1655-1839 | the code emitted for arithmetic carries agreement over, in instruction forms that exist (none multiplies into memory); for a comparison it keeps agreement and leaves both operands in the flags |
| JitCompiler.JitCtx.Neg | src/jit.c:3484-3488 | the code emitted for negation carries agreement over, its two registers never being the same |
| JitCompiler.JitCtx.DiscardRegs | src/jit.c:1313-1330 | afterwards nothing is bound |
| JitCompiler.JitCtx.RegisterJump | src/jit.c:1984-1992 | records the jump and marks a target without code yet |
| JitCompiler.JitCtx.Ret | src/jit.c:1601-1606 | the code emitted for a return leaves the value in EAX |
| JitCompiler.JitCtx.HookCall | src/jit.c:3143-3271 | behind the hook call nothing is bound and one register is locked |
| JitCompiler.JitCtx.CompileOp | src/jit.c:3381-3526 | the code emitted for each operation is right for it |
| JitCompiler.SegmentEncodable | src/jit.c:454-474 | what is emitted for an operation only uses forms that the table of instruction forms has |
| JitCompiler.JitCtx.EmitAll | src/jit.c:3368-4910 | one pass lays out all operations, the position of operation 0 in front of the hook call; forward landings have no bindings; every jump is recorded; every instruction has a form in the table |
| JitCompiler.JitCtx.PatchJumps | src/jit.c:4919-4927 | afterwards every jump goes to the code of its target and nothing else has changed; every instruction still has a form |
| JitCompiler.JitCtx.Compile | src/jit.c:3274-4945 | the compiled function returns exactly what the bytecode returns, for all inputs, if its loops start with labels; all its instructions have a form in the table |
| JitRuns.StepSimulates | src/jit.c:3372-4910 | one bytecode step is matched by a machine run that ends in agreement |
| JitRuns.Arrive | src/jit.c:3368-3370 | arriving at operation 0 runs the hook, which keeps agreement whatever it leaves in the registers |
| JitRuns.RunSimulates | src/jit.c:3372-4910 | every bytecode run is followed by a machine run that makes progress |
| JitRuns.CompiledReturnsIff | src/jit.c:3274-4945 | compiled code returns a value exactly if the bytecode does |
| ModSorter.CollectMods | python/mod_sorter.py:84-93 | the enabled mods by id in order, or the first duplicate id with both names |
| ModSorter.LinkMods | python/mod_sorter.py:94-101 | dependents, in the order found, and in-degrees for all mods, or the first dependency that nothing provides |
| ModSorter.Release | python/mod_sorter.py:108-111 | every dependent of a finished mod waits for one mod less; those with nothing left are queued once, and order and queue stay in turn |
| ModSorter.TakeInOrder | python/mod_sorter.py:102-111 | the order has each mod after its dependencies and is in turn: what can be loaded from an earlier point on comes first, ties as found; what is left waiting is exactly what reaches a cycle |
| ModSorter.OrderedIsFree | python/mod_sorter.py:102-111 | a mod in such an order reaches no cycle |
| ModSorter.StuckReachesCycle | python/mod_sorter.py:112-115 | mods that only wait for one another reach a cycle |
| ModSorter.ResolveModOrder | python/mod_sorter.py:84-116 | each of the four answers is justified: duplicate, unmet, exactly the blocked mods sorted, or a permutation with dependencies first and in turn |
| ModSorter.SucceedsIff | python/mod_sorter.py:84-116 | it succeeds exactly when ids are unique, dependencies present and nothing cyclic |
| ModSorter.OrderIsDetermined | python/mod_sorter.py:102-116 | the order given is the only one that has dependencies first and is in turn |
| ModSorter.IndependentAsFound | python/mod_sorter.py:102-103 | without dependencies the order is the one in which the mods were found |
| ModSorter.UniqueAsFound | python/mod_sorter.py:46-46 | repeated dependencies are dropped behind their first occurrence |
| ModSorter.StrLeIff | python/mod_sorter.py:113-113 | blocked mods are compared at the first character in which they differ |
| JsonStrings.ParseHex4Iff | src/cJSON.c:661-694 | four hexadecimal digits, each in either case, are read as the number they spell; anything else as zero |
| JsonStrings.MisspeltIsNul | src/cJSON.c:698-816 | a `\u` without four digits stands for a NUL |
| JsonStrings.Utf8Back | src/cJSON.c:756-808 | the UTF-8 form of a code point decodes to it, has the leading and continuation bytes of RFC 3629 and is the shortest |
| JsonStrings.PieceStep | src/cJSON.c:852-920 | each way to write a character (plain, the eight short escapes, a code in either case, a surrogate pair) is taken for what RFC 8259 section 7 says it means |
| JsonStrings.StringUnderstood | src/cJSON.c:819-946 | every string of the RFC, in every spelling, is parsed to its meaning |
| JsonStrings.StringIff | src/cJSON.c:819-946 | unless a `\u` lacks its digits, exactly the strings of the RFC are accepted: other escapes and single surrogates are refused |
| JsonStrings.EscapeCharIs | src/cJSON.c:949-1068 | the printer writes the short escape where there is one (but not for the slash), `\u00` and two digits for other control characters, and every other byte as it is |
| JsonStrings.LayoutFormatted | src/cJSON.c:1590-1881 | the formatted text of a tree, character by character |
| JsonStrings.LayoutPlain | src/cJSON.c:1590-1881 | the unformatted text of the same tree |
| JsonNumbers.DecimalSpells | src/cJSON.c:607-627 | an integer is printed as the decimal digits that spell it, without leading zeros |
| JsonNumbers.NumberTextIff | src/cJSON.c:607-627 | any other number is printed with 15 digits exactly if they read back as it, else with 17; what is printed reads back |
| JsonNumbers.SaturateIff | src/cJSON.c:388-400 | the integer beside a number is the number cut off towards zero, or the nearest of 32 bits |
| JsonNumbers.NumeralBack | src/cJSON.c:307-364 | every number of RFC 8259 section 6 is given whole to the C library |
| JsonNumbers.NumberWritten | src/cJSON.c:307-408 | a number that is accepted in a text is one the C library takes whole |
| JsonGrammar.ValueRead | src/cJSON.c:1363-1415 | the text of any syntax tree, with any spelling and any blanks, is parsed to its meaning exactly if it nests within the limit |
| JsonGrammar.ItemsRead | src/cJSON.c:1492-1587 | the same for the items of an array, in order |
| JsonGrammar.EntriesRead | src/cJSON.c:1652-1767 | the same for the members of an object, in order, with their names |
| JsonGrammar.ValueWritten | src/cJSON.c:1363-1415 | whatever value is accepted, the text it was taken from is that of a syntax tree with this meaning, nested within the limit |
| JsonGrammar.ItemsWritten | src/cJSON.c:1492-1587 | the same for an array: items, commas and blanks, and nothing else |
| JsonGrammar.EntriesWritten | src/cJSON.c:1652-1767 | the same for an object: names, colons, values, commas and blanks |
| JsonGrammar.TextRead | src/cJSON.c:1142-1187 | a whole text with blanks around it, and perhaps a byte order mark in front, is parsed to its meaning exactly if it nests no deeper than 1000 |
| JsonGrammar.AcceptsIff | src/cJSON.c:1142-1187 | told to read to the end, the parser accepts exactly the texts of the grammar nested no deeper than 1000 and gives what they mean |
| JsonRoundTrip.EscapedMeans | src/cJSON.c:949-1068 | the escaped text of a string means the string |
| JsonRoundTrip.Printed | src/cJSON.c:1418-1489 | what the printer writes for a tree, formatted or not, is a text that means the tree |
| JsonRoundTrip.RoundTripIff | src/cJSON.c:1142-1187 | parsing printed text, formatted or not, gives the tree back exactly if it nests no deeper than 1000, and fails otherwise |
| JsonPrinter.PrintBuffer.Ensure | src/cJSON.c:485-568 | gives room exactly if the total stays within the limit, keeping what was written |
| JsonPrinter.PrintBuffer.UpdateOffset | src/cJSON.c:571-581 | moves the offset to the terminator |
| JsonPrinter.PrintBuffer.PrintString | src/cJSON.c:949-1068 | writes the escaped string within the room it asked for; fails exactly if it does not fit |
| JsonPrinter.PrintBuffer.PrintNumber | src/cJSON.c:591-658 | writes the text of any number; fails exactly if it has more than 25 characters or does not fit |
| JsonPrinter.PrintBuffer.FormatNumber | src/cJSON.c:607-627 | integers in full, others with 15 digits, or with 17 if those do not read back; null for what is not finite |
| JsonPrinter.PrintBuffer.PrintValue | src/cJSON.c:1418-1489 | writes exactly the text of the value; fails exactly if a number is too long or the text and two bytes do not fit |
| JsonPrinter.PrintBuffer.PrintArray | src/cJSON.c:1590-1649 | the same for arrays, depth restored |
| JsonPrinter.PrintBuffer.PrintObject | src/cJSON.c:1770-1881 | the same for objects, indented or not, depth restored |
| JsonPrinter.PrintTree | src/cJSON.c:1234-1296 | the printed buffer is the text and its terminator |
| JsonPrinter.PrintPreallocated | src/cJSON.c:1341-1360 | succeeds exactly if every number fits and the buffer is two bytes longer than the text |
| JsonPrinter.PrintClean | src/cJSON.c:571-581 | no text has a terminator inside, so its length can be found by looking for one |
| JsonParser.ParseBuffer.SkipSpace | src/cJSON.c:1085-1108 | skips to the next non-blank byte without leaving the text |
| JsonParser.ParseBuffer.TakeString | src/cJSON.c:819-946 | the two loops compute the string, or fail exactly where the definition does |
| JsonParser.ParseBuffer.Hex4At | src/cJSON.c:661-694 | computes the number of four digits that JsonStrings.ParseHex4Iff is about |
| JsonParser.ParseBuffer.TakeUtf16 | src/cJSON.c:698-816 | one or two escape sequences: length and bytes |
| JsonParser.EncodeUtf8 | src/cJSON.c:756-808 | the loop from the last byte to the first gives the UTF-8 form |
| JsonParser.ParseBuffer.TakeNumber | src/cJSON.c:307-408 | takes what the conversion takes and saturates the integer |
| JsonParser.ParseBuffer.TakeValue | src/cJSON.c:1363-1415 | computes the value and the place behind it, or fails exactly where the definition does |
| JsonParser.ParseBuffer.TakeArray | src/cJSON.c:1492-1587 | the same for arrays, depth restored |
| JsonParser.ParseBuffer.TakeObject | src/cJSON.c:1652-1767 | the same for objects, depth restored |
| JsonParser.Parse | src/cJSON.c:1142-1187 | parsing a whole text |
| JsonParser.Reparse | src/cJSON.c:1142-1187 | the parser gives back what was printed exactly if it nests within the limit |
| JsonList.OneSequence | src/cJSON.c:1984-2043 | a parent's links determine its children |
| JsonList.GetArraySize | src/cJSON.c:1884-1904 | the number of children |
| JsonList.GetArrayItem | src/cJSON.c:1907-1933 | the child at an index, or null outside |
| JsonList.GetObjectItem | src/cJSON.c:1936-1968 | the first child of that name, with or without regard to case; a case-sensitive search gives up at a nameless child before it |
| JsonList.EqualButForCase | src/cJSON.c:133-154 | names are equal but for case |
| JsonList.SameLetterIff | src/cJSON.c:133-154 | two characters are the same but for case exactly if they are equal or the two forms of one letter |
| JsonList.AddItemToArray | src/cJSON.c:2012-2043 | appends; chain, back links and tail link are kept |
| JsonList.DetachItemViaPointer | src/cJSON.c:2243-2277 | removes one child and unlinks it; the rest is a chain with its back links |
| JsonList.DetachItemFromArray | src/cJSON.c:2279-2287 | removes the child at an index |
| JsonList.InsertItemInArray | src/cJSON.c:2319-2351 | inserts in front of an index, or appends |
| JsonList.ReplaceItemViaPointer | src/cJSON.c:2353-2400 | puts a node in a child's place, head, middle or tail |
| JsonList.ReplaceItemInArray | src/cJSON.c:2402-2410 | the same by index |
| UtHash.Table.Find | src/uthash.h:745-764 | finds an item with the key exactly if the table has one |
| UtHash.Table.Add | src/uthash.h:396-415 | the integrity check holds afterwards and the item is last in application order |
| UtHash.Table.AddToTable | src/uthash.h:767-785 | the table doubles exactly if the chain the item joins has reached its limit and doubling has not been given up |
| UtHash.Table.AppendList | src/uthash.h:278-284 | appends to the ordered list |
| UtHash.PushChain | src/uthash.h:769-776 | puts an item at the head of a chain with links and count |
| UtHash.DropChain | src/uthash.h:789-802 | takes an item out of a chain with links and count |
| UtHash.Table.ExpandBuckets | src/uthash.h:833-885 | twice the buckets, every item in the one its hash now selects, all chains consistent; how many items exceed the ideal length, each chain's raised limit, and whether doubling is given up |
| UtHash.Table.MoveChain | src/uthash.h:850-871 | every item of an old chain is filed in the new buckets |
| UtHash.RaisedIs | src/uthash.h:854-859 | how often filing c items one by one raises a chain's limit: the length over the ideal, rounded up, or one less |
| UtHash.Table.Delete | src/uthash.h:450-477 | the integrity check holds afterwards and exactly that item is gone |
| UtHash.CeilDiv | src/uthash.h:845-847 | the ideal chain length is items over buckets, rounded up |
| UtHash.MaskIsRemainder | src/uthash.h:430-433 | masking by one less than a power of two is the remainder |
| UtHash.ToBktIsRemainder | src/uthash.h:430-433 | in every table the bucket of a hash value is its remainder, the number of buckets being a power of two |
| UtHash.IdealLength | src/uthash.h:845-847 | shift and mask compute the rounded-up quotient |
| UtHash.FsckCounts | src/uthash.h:516-563 | the bucket counts add up to the item count |
| UtSort.MergeSorted | src/uthash.h:911-953 | merging sorted runs, the first originally ahead of the second, is sorted and stable |
| UtSort.PassRuns | src/uthash.h:897-961 | a pass turns sorted runs of k into sorted runs of 2k |
| UtSort.SortIsStable | src/uthash.h:890-972 | started with runs of one, the passes give a stable sorted permutation |
| UtSort.StepOver | src/uthash.h:901-910 | counts a run of at most k items and stops behind it |
| UtSort.MergeRun | src/uthash.h:911-953 | the merge loop moves two runs to the output, links included |
| UtSort.SortPass | src/uthash.h:897-961 | one pass over the list, and when it was the last |
| UtSort.SortTable | src/uthash.h:890-972 | the table is sorted in place, stably, head, tail and both links consistent, buckets untouched |
| Sha256Words.ChSelects | src/sha256.c:24-24 | bit by bit, x chooses between y and z |
| Sha256Words.MajIsMajority | src/sha256.c:25-25 | bit by bit, what at least two of the three have |
| Sha256Words.BigSigma0Is | src/sha256.c:26-26 | exclusive or of the rotations by 2, 13 and 22, on integers |
| Sha256Words.BigSigma1Is | src/sha256.c:27-27 | exclusive or of the rotations by 6, 11 and 25, on integers |
| Sha256Words.SmallSigma0Is | src/sha256.c:28-28 | exclusive or of the rotations by 7 and 18 and the quotient by 2^3 |
| Sha256Words.SmallSigma1Is | src/sha256.c:29-29 | exclusive or of the rotations by 17 and 19 and the quotient by 2^10 |
| Sha256Constants.RoundConstants | src/sha256.c:32-41 | constant t holds the first 32 bits of the fraction of the cube root of the t-th prime |
| Sha256Constants.InitialHash | src/sha256.c:89-96 | word t of the initial value holds those of the square root |
| Sha256Answer.AbcCompressed | src/sha256.c:44-83 | the block of "abc" is compressed to the value published in appendix B.1 of FIPS 180-2 |
| Sha256Answer.AbcDigest | src/sha256.c:85-158 | and its digest is the published one |
| Sha256.ExpandBlock | src/sha256.c:48-51 | the first loops compute the message schedule |
| Sha256.Mix | src/sha256.c:62-73 | the last loop computes the sixty-four rounds |
| Sha256.Context.Transform | src/sha256.c:44-83 | one block into the state, as in section 6.2.2 of FIPS 180-2 |
| Sha256.Context.Update | src/sha256.c:99-112 | the context has taken in exactly the bytes given, for every length for which the loop ends (see Sha256.UpdateEndsIff) |
| Sha256.UpdateEndsIff | src/sha256.c:99-112 | some number of rounds ends the loop exactly if the length is below 2^32, and then exactly as many as there are bytes |
| Sha256.UpdateOfAll32 | src/sha256.c:99-112 | an update of 2^32 bytes never ends |
| Sha256.CounterAt | src/sha256.c:101-103 | the counter after k rounds is k modulo 2^32 |
| Sha256.Context.UpdateRounds | src/sha256.c:99-112 | what k rounds of an update of any length feed to the context, and whether it has ended by then |
| Sha256.Context.Final | src/sha256.c:114-158 | the digest of everything taken in, padded as in section 5.1.1 |
| Sha256.PadBlocks | src/sha256.c:118-148 | what is left after whole blocks is padded into one block or two |
| Sha256.PadTellsApart | src/sha256.c:118-146 | different messages under 2^64 bits have different padded forms |
| Sha256.DigestOf | src/sha256.c:85-158 | however a message is cut into updates, the result is its digest |

## Left out

- Operating-system memory, page-hash collisions, page map, out-of-memory paths, memory dumps, statistics, profiling and debug fills: a page is fresh memory and its number is never reused.
- The list of pages of a kind and its cursor `gc_free_pages`: the heap runs let an allocation choose any page with room, which includes the page the source finds; a fresh page whose only run is used up keeps a zero-length run in the source and none here.
- Growth of the run-list array and its cache of freed arrays: the run list is a sequence.
- PageAllocator.Page.BeforeMark: the slice of the bitmap is an array of bits per page; packing into bytes is only modelled where a trace undoes bytes.
- PageAllocator.Page.CallFinalizers: finalizers are recorded, what they do is not modelled.
- PageAllocator.Page.constructor: for fewer than 65536 blocks. What becomes of the run of a page of exactly 65536 is `SizeClasses.NewPageRun`; later sweeps of such a page are not modelled.
- The loop that should set `size_bits` never iterates, so a block lookup always divides; the model divides.
- Mark bits of types, blocks without pointers and page kinds: the graph holds the words that a scan follows.
- Saved contexts, `setjmp` and stack layout: each thread's stack is a given sequence of words. That `gc_global_lock` saves the context before it counts the thread is not modelled.
- Weak memory: shared accesses are sequentially consistent and bit operations atomic.
- ParallelMark.StepKeepsMarkInv: when a running marker hands work out is left open (any time it has popped a block), so the source's threshold is one case.
- CPython's reference counts, generations and weak references: its collector may drop what it cannot reach. A dead peer that has not been released and whose address is used again is not modelled; peers have distinct blocks. Peers registered while a Python collection is under way are not modelled.
- PeerCycles.ReachablePeersStay: for handles that hold block starts; `PeerCycles.HandleMarksIff` says that others do not keep what they lead to.
- StopTheWorld.SpunOnThreadMoves: a thread in HL code may run for ever without a safepoint; the claim is for threads outside it.
- JIT byte encoding beyond the question which forms exist, condition codes of jumps, floating point, 8-, 16- and 64-bit operands, shifts, division, calls, traps and argument registers: instructions are abstract, with the opcodes of the forms they have, and the function starts with its arguments in the frame. The hook at a function's head may leave anything in the registers; that it replaces the function's result or writes to the arguments is not modelled. The scratch registers are those of the 64-bit calling convention outside Windows.
- JitCompiler.JitCtx.PatchJumps: jump targets are places in the emitted code, not byte offsets; each function has its own code buffer.
- Allocation failure in cJSON, raw items, references, comments and constant names. The C library's number formatting and reading are parameters; the round trip is for trees whose numbers are integers of 32 bits; all that is assumed of its reading is that it reads these. Doubles are compared as the numbers they stand for.
- ForeignRoots.GcMark: the method marks with one thread; the passes with marker threads are `ParallelPasses.PassesMarkExactly`.
- JsonParser.ParseBuffer.TakeString: the size of the output buffer allocated for an unescaped string is not modelled; strings are sequences, and a NUL escaped in the text is kept.
- JsonList.ReplaceItemViaPointer: freeing the replaced child is not modelled beyond unlinking it.
- UtHash.Table.Find: the hash function is any function of the key; Bloom filters, out-of-memory roll-back, ordered adds and `HASH_SELECT` are not modelled. The doubling of the bucket count does not overflow.
- UtSort.SortTable: the comparison is a total preorder on the items; run sizes are unbounded integers, which 32 bits hold for every table.
- Finding mods on disk and reading their manifests: the resolver starts from the manifests found, with repeated dependencies dropped as the reader drops them.
- Sha256.Context.Update: for lengths below 2^32, the only ones for which it returns; `Sha256.Context.UpdateRounds` is for all.
- Sha256.DigestOf: each update is of a length for which it returns.
- `native_hook.c`, the REPL, debugger, crash handler, module loading and the Python API wrappers: input and output, or thin wrappers.
