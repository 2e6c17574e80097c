# The core of the .NET Micro Framework runtime, modelled in Dafny

This project models the hard parts of the .NET Micro Framework runtime (TinyCLR) and of its boot loader, and proves
that they do what the rest of the system relies on. Each part of the runtime is a class or a set of methods with the
runtime's own fields and loops, proved against specifications on plain values; the theorems are about these values.

- **Calls.** `Il` is a reference machine for a subset of IL (constants, arguments, locals, addition, branches, calls,
  returns). `StackFrames` is the interpreter's memory: one block of cells per frame, in which arguments, locals and the
  evaluation stack are offsets, and in which a callee may run inside its caller's frame. `Interpreter` is the
  interpreter itself, on arrays. However many calls are inlined, the memory stands for the reference machine's state.
- **Garbage collection.** `MarkStack`, `Reachability`, `Marking` and `Collector` are the marker with its chunked mark
  stack, the rescans after an overflow, roots and finalizers. `HeapLayout`, `FreeList` and `HeapCluster` are a cluster:
  initialization, allocation, ordered insertion and sweep. `Compaction`, `Relocation`, `ObjectGraph`, `Packing` and
  `Compactor` are the compactor with its bounded relocation table.
- **Caches.** `TypeSystem` is the slow search for a method from a class up through its parents. `AvlTree`, `Ordered`, `Lru`
  and `MethodCache` are the method cache on an AVL tree, `Rings` and
  `HashedCache` the one on rings in arrays, `EventCache` the cache of event blocks.
- **Threads.** `Locks`, `Frames`, `LockManager` and `SyncMethods` are recursive locks and synchronized methods,
  `EventWaits` waits for events, `Timers` timers.
- **Arithmetic and codecs.** `Unicode`, `FixedPoint` and `ArmEmulator`.
- **Boot loader.** `FlashLoader`: access to flash by blocks, and the tracker of written but unverified data.

Loops, branches and constants are the runtime's. Memory allocation, hardware answers, the clock, the type system and
checksums are parameters, so that the results hold whatever they say.

## Findings

Where the code does not do what it is evidently meant to, the model keeps the code, shows that the case is real and
proves when exactly it does what it is meant to.

- **A traversal that comes back to a full chunk writes past its end**
  (CLR/Core/GarbageCollector_ComputeReachabilityGraph.cpp:98-103). The save step has already aimed `m_markStack` at the
  chunk in use, so loading brings that chunk back, and it is full. `MarkStack.Stack.SwitchAsWritten` shows this,
  `MarkStack.Stack.OverrunIsReached` reaches it from a new stack, and `MarkStack.Stack.PushAsWritten` proves that a push
  stays in bounds exactly when neither this nor the next finding applies, and then does what it is meant to. The marker
  runs on either stack: `Collector.Marker.Mark` proves the marks exact for the stack as it is meant, which takes the next
  chunk as the way back at lines 72-74 does, and for the stack as it is written as long as no push has overrun.
- **A new chunk may have one element, which its sentinel fills**
  (CLR/Core/GarbageCollector_ComputeReachabilityGraph.cpp:112-122). `MarkStack.Stack.GrowAsWritten` proves that there is
  room exactly when the size found is not 1; `Grow` stops at 2.
- **`Monitor.Exit` inside a synchronized method gives up the method's own lock**
  (CLR/Libraries/CorLib/corlib_native_System_Threading_Monitor.cpp:47-64, CLR/Core/CLR_RT_HeapBlock_Lock.cpp:173-207).
  `SyncMethods.Synchronizer.MonitorExit` keeps the balance exactly when the sub-thread had entered the monitor by itself or
  does not have the lock; `SyncMethods.ExitsItsOwnLock` is a run that loses it.
- **A lock whose first owner finds no memory stays behind without an owner** (CLR/Core/Execution.cpp:2666-2683).
  `LockManager.LockEngine.LockObject` keeps the state safe exactly when the lock existed, or its own allocation fails, or
  the owner's succeeds.
- **A timer whose thread does not start has lost its time** (CLR/Core/CLR_RT_HeapBlock_Timer.cpp:84-125).
  `Timers.Timer.SpawnTimer` keeps the timer valid exactly when the thread starts. In the run `Timers.Timer.LosesItsBeat` the
  next attempt takes the time that means never for the last one, and the timer is off its beat exactly when that time is.
- **High surrogates do not survive a round trip** (CLR/Core/CLR_RT_UnicodeHelper.cpp:274, :364): the encoder adds a base that
  the decoder does not take off. `Unicode.RoundTrip` is the identity exactly on strings without high surrogates.
- **The encoder can step over the end of the string** (CLR/Core/CLR_RT_UnicodeHelper.cpp:364), when it takes the zero for the
  low half of a pair. `Unicode.WithinWhole`: asked for the whole string it stays inside exactly if an even number of high
  surrogates stands at the end; `Unicode.WithinExactly` says it for any limit.
- **The decoder's default limit can take it over the end** (CLR/Core/CLR_RT_UnicodeHelper.cpp:133-136): it does not look whether
  the bytes of a character are there. `Unicode.DefaultLimitLeaves` is a string of one byte. `Unicode.SafeLimits`: all strings
  of a length are safe exactly if the limit of bytes is no more, or the units asked for do not get it to the end.
- **The boot loader's tracker cannot see a write to address 0** (Application/TinyBooter/Commands.cpp:638-662, :701-725): it
  takes that address for "nothing written", and the next write replaces the interval.
  `FlashLoader.LoaderEngine.MonitorWriteMemory` keeps the tracker sound exactly when a first write is empty or does not begin
  at address 0; in the run `FlashLoader.LoaderEngine.LosesTrack` a signature of the second write is enough for both.

## Model

| member | source | states |
|---|---|---|
| Il.StepOk | CLR/Core/Interpreter.cpp:969-1187 | every instruction of the subset keeps every frame at the stack height that its method declares |
| Il.LeftOk | CLR/Core/Interpreter.cpp:1956-1994 | a return leaves exactly the declared result, and the caller at its declared height |
| Il.AddMeans | CLR/Core/Interpreter.cpp:1545-1553 | an addition leaves the sum of the signed values if it fits 32 bits and what is congruent to it if not, in the type of the left one; on anything but numbers it raises an exception |
| Il.LoadMeans | CLR/Core/Interpreter.cpp:969-1121 | a load pushes the variable with its value, as its sign says, widened to 32 bits |
| Il.StoreMeans | CLR/Core/Interpreter.cpp:1131-1187 | a store moves the bits into the variable, which keeps its type if it is primitive and takes the whole cell if not |
| Il.StackMeans | CLR/Core/Interpreter.cpp:1202-1309 | constants, `dup` and `pop`: exactly that one cell comes or goes |
| Il.BranchMeans | CLR/Core/Interpreter.cpp:1311-1344 | a branch is taken exactly on zero or exactly on what is not zero |
| Il.CallMeans | CLR/Core/Interpreter.cpp:1846-1950 | the arguments leave the caller's stack, and the callee begins with them, the first pushed being the first |
| Il.ReturnMeans | CLR/Core/Interpreter.cpp:1956-1994 | the callee is gone, and the caller has its result, widened, on its stack |
| StackFrames.InlinedOkay | CLR/Core/CLR_RT_StackFrame.cpp:300-382 | if the conditions allow inlining, the callee's arguments, locals and stack lie apart from all that the caller still uses; the caller is as it was without the arguments, the callee at its start |
| StackFrames.RestoredOk | CLR/Core/CLR_RT_StackFrame.cpp:384-448 | leaving an inlined call brings back exactly the method that made it |
| StackFrames.InBounds | CLR/Core/Interpreter.cpp:969-1187 | the next instruction finds its operands, and locals, arguments and stack lie inside their blocks |
| StackFrames.ExecuteSimulates | CLR/Core/Interpreter.cpp:1846-1994 | one turn of the interpreter does one step of the reference machine, whether a call gets a frame or runs inside its caller's, and whatever new memory holds |
| StackFrames.RunSimulates | CLR/Core/Interpreter.cpp:1846-1994 | over every run the memory stands for the reference machine's state |
| StackFrames.DenotesCells | CLR/Core/CLR_RT_StackFrame.cpp:11-93 | what the memory stands for, cell by cell: the running method's locals, arguments and stack are the cells that the frame's pointers point to |
| StackFrames.InliningIsInvisible | CLR/Core/CLR_RT_StackFrame.cpp:300-423 | two runs that differ only in which calls are inlined stand for the same state |
| StackFrames.StartOk | CLR/Core/CLR_RT_StackFrame.cpp:51-93 | the first frame of a thread, with its minimum reduced by the arguments, stands for the method at its start |
| Interpreter.StackFrame.constructor | CLR/Core/CLR_RT_StackFrame.cpp:11-93 | a new frame is laid out as the specification says, its arguments on the caller's stack |
| Interpreter.StackFrame.First | CLR/Core/CLR_RT_StackFrame.cpp:51-93 | the same for the first frame, with its arguments at the end of its own block |
| Interpreter.StackFrame.PushInline | CLR/Core/CLR_RT_StackFrame.cpp:300-382 | inlines exactly if the frame is not inlined in yet, the area left on the stack is larger than arguments, locals and stack of the callee and two cells, the method is neither special nor static, and there is a buffer; then into the layout of `InlinedOkay`, otherwise nothing changes |
| Interpreter.StackFrame.PopInline | CLR/Core/CLR_RT_StackFrame.cpp:384-411 | the frame is the caller's again, with the value returned on its stack |
| Interpreter.Thread.Turn | CLR/Core/Interpreter.cpp:969-1187 | one turn of the loop on arrays takes the thread one step nearer the reference machine's state |
| Interpreter.Thread.ExecuteIL | CLR/Core/Interpreter.cpp:1846-1994 | after `quantum` turns the thread stands for the state that the reference machine reaches, however many calls were inlined |
| MarkStack.Stack.Push | CLR/Core/GarbageCollector_ComputeReachabilityGraph.cpp:90-158 | the push as written or as meant: puts the rest of the cells on the stack, or leaves it and says so in the flag; never gives up on an empty stack; a second flag is set exactly if the code as written would have left its chunk |
| MarkStack.Stack.Next | CLR/Core/GarbageCollector_ComputeReachabilityGraph.cpp:56-88 | takes exactly the next cell, going back over chunks, and ends only with the stack empty in the first chunk |
| MarkStack.Stack.SwitchAsWritten | CLR/Core/GarbageCollector_ComputeReachabilityGraph.cpp:96-103 | the switch as written leaves the registers at the end of the full chunk |
| MarkStack.Stack.GrowAsWritten | CLR/Core/GarbageCollector_ComputeReachabilityGraph.cpp:104-131 | the new chunk has the largest size that there is memory for, and room exactly if that is not 1 |
| MarkStack.Stack.PushAsWritten | CLR/Core/GarbageCollector_ComputeReachabilityGraph.cpp:90-158 | as written, the write is in bounds exactly when there is no old chunk to switch to and no chunk of one element; then it does what `Push` does |
| MarkStack.Stack.OverrunIsReached | CLR/Core/GarbageCollector_ComputeReachabilityGraph.cpp:96-103 | a run from a new stack to a push that overruns whatever memory there is |
| Reachability.HeadersTile | CLR/Core/GarbageCollector.cpp:265-294 | the headers of a cluster follow each other by the sizes of their kinds: behind each comes the next up to the end, and before each but the first there is one |
| Marking.ExactMarks | CLR/Core/GarbageCollector.cpp:265-294 | marks that are sound, hold the start and are closed under references are exactly what can be reached |
| Marking.ExactCloses | CLR/Core/GarbageCollector_ComputeReachabilityGraph.cpp:165-283 | exact marks are closed, kind by kind: an array of references holds on to all its elements, an instance to all its fields, a delegate to its object, a list of delegates to all of them |
| Marking.ExactJustifies | CLR/Core/GarbageCollector_ComputeReachabilityGraph.cpp:165-283 | and justified: every marked object is a root, a finalizer or the target of such a cell of a marked object; arrays of values lead nowhere |
| Marking.TurnEnds | CLR/Core/GarbageCollector_ComputeReachabilityGraph.cpp:53-285 | every turn of the traversal leaves fewer dead objects, or as many and less to do |
| Collector.Marker.ComputeReachabilityGraphForMultipleBlocks | CLR/Core/GarbageCollector_ComputeReachabilityGraph.cpp:38-292 | a traversal, with the push as written or as meant, marks only what can be reached; it unwinds to the first chunk; if it ran out of space it has marked something new |
| Collector.Marker.MarkSlow | CLR/Core/GarbageCollector.cpp:265-294 | the rescans end, with every marked object's references marked |
| Collector.Marker.PrepareFinalizers | CLR/Core/GarbageCollector.cpp:342-437 | the finalizable objects that nothing reaches, and no others, move to the pending list |
| Collector.Marker.Mark | CLR/Core/GarbageCollector.cpp:296-454 | the objects marked are exactly those reachable from the roots, the pending finalizers and the objects that join them, however small the mark stack, with closure and justification as above; as written, unless a push has overrun |
| HeapCluster.HeapCluster.constructor | CLR/Core/CLR_RT_HeapCluster.cpp:9-43 | a new cluster is one free block, whatever size it is first cut into |
| HeapCluster.HeapCluster.ExtractBlocks | CLR/Core/CLR_RT_HeapCluster.cpp:45-137 | fails exactly if no free block is large enough; an object comes from the front of the lowest that is, an event from the back of the highest; what remains of it stays free, and every other block where it was; tiling, free list and headers stay right |
| HeapLayout.AllocatedBlock | CLR/Core/CLR_RT_HeapCluster.cpp:85-137 | the new block is where it was said to be, and free space is smaller by its size |
| HeapCluster.HeapCluster.InsertInOrder | CLR/Core/CLR_RT_HeapCluster.cpp:209-244 | the block joins its free neighbours and the list at its place, and the start of the joined block is returned |
| HeapLayout.InsertedFrees | CLR/Core/CLR_RT_HeapCluster.cpp:209-244 | what becomes free is what was inserted |
| HeapCluster.HeapCluster.RecoverFromGC | CLR/Core/CLR_RT_HeapCluster.cpp:141-207 | every maximal run of dead blocks becomes one free block, the list is rebuilt in address order, the blocks in use are exactly the survivors, field by field, and none but events is marked, as the next marking needs |
| HeapLayout.SweptKeeps | CLR/Core/CLR_RT_HeapCluster.cpp:141-207 | every survivor is at its address with the same flags, size, contents and references, and is marked exactly if it is an event |
| HeapLayout.SweptFrom | CLR/Core/CLR_RT_HeapCluster.cpp:141-207 | and every block in use after the sweep is such a survivor; where a free one stands nothing was alive |
| HeapLayout.SweptOk | CLR/Core/CLR_RT_HeapCluster.cpp:141-207 | after the sweep blocks tile the cluster and free ones are never side by side |
| HeapCluster.AllocateHeaps | CLR/Core/Execution.cpp:208-257 | the memory is cut into clusters that no block outgrows, all but the last as large as that allows, with too little left for another |
| Compaction.MovedBlock | CLR/Core/GarbageCollector_Compaction.cpp:153-252 | the blocks moved come down to the free region, and every other block in use stays where it is |
| Compaction.MovedOk | CLR/Core/GarbageCollector_Compaction.cpp:153-252 | the heap stays tiled without adjacent free blocks, and no free space is lost or made |
| Relocation.RelocationTable.Relocate | CLR/Core/GarbageCollector_Compaction.cpp:397-438 | bounds and bisection find what a look through the whole table would |
| Relocation.RelocationTable.FindBounds | CLR/Core/GarbageCollector_Compaction.cpp:324-357 | the minimum is the least start and the maximum the greatest end of the regions of the table |
| Compactor.GarbageCollector.RelocatePass | CLR/Core/GarbageCollector_Compaction.cpp:359-395 | every reference of every block and every root is relocated, once |
| Compactor.GarbageCollector.Relocate | CLR/Core/GarbageCollector_Compaction.cpp:324-357 | a flush in the middle of a pass applies the table, empties it, and keeps what compaction relies on |
| Compactor.GarbageCollector.TakeFree | CLR/Core/GarbageCollector_Compaction.cpp:153-252 | the heap after one move is that of `Moved` for a slide, or of the copy with the rest given back |
| Compactor.GarbageCollector.Compact | CLR/Core/GarbageCollector_Compaction.cpp:43-282 | compaction ends; each block in use moves at most once and only down, pinned ones and events not at all, with every reference and root forwarded; in a heap of any number of clusters in which nothing in use is pinned or an event, what is free ends up in one piece at the end of each cluster |
| ObjectGraph.SamePath | CLR/Core/GarbageCollector_Compaction.cpp:43-282 | from a forwarded reference every path leads to the same object and place as before |
| ObjectGraph.SameRoots | CLR/Core/GarbageCollector_Compaction.cpp:43-282 | so no path from any root can tell that the heap was compacted |
| ObjectGraph.FixedStay | CLR/Core/GarbageCollector_Compaction.cpp:103-195 | over a whole compaction no pinned block and no event ever moves |
| Packing.MovedMeans | CLR/Core/GarbageCollector_Compaction.cpp:153-252 | a move, cell by cell: the cells at the start of the free block are in use, the rest of that block and the cells left behind are free, and all others are as before |
| Compactor.GarbageCollector.CompactCluster | CLR/Core/GarbageCollector_Compaction.cpp:68-281 | a round ends further on; if everything in use can move, all clusters up to where it has come have what is free at their end, whichever cluster the free region was in |
| AvlTree.LeftGrown | CLR/Core/AVLTree.cpp:130-189 | restores balance and true skews, keeps the order and the nodes, and says `RES_BALANCE` exactly if the height grew by one |
| AvlTree.RightGrown | CLR/Core/AVLTree.cpp:191-264 | likewise on the right |
| AvlTree.LeftShrunk | CLR/Core/AVLTree.cpp:266-337 | likewise, `RES_BALANCE` exactly if the height fell by one |
| AvlTree.RightShrunk | CLR/Core/AVLTree.cpp:339-405 | likewise on the right |
| AvlTree.BalancedIsShallow | CLR/Core/AVLTree.cpp:57-405 | a balanced tree of a height has no fewer nodes than the Fibonacci-like minimum for it |
| MethodCache.VirtualMethodTable.Find | CLR/Core/AVLTree.cpp:28-55 | finds the node of a key exactly if there is one, in no more steps than the height and so than the number of nodes allows |
| TypeSystem.Metadata.FindByName | CLR/Core/TypeSystem.cpp:4147-4194 | the walk over a class and its parents, with its shortcut for the called method itself |
| TypeSystem.Metadata.FindVirtualMethodDef | CLR/Core/TypeSystem.cpp:4111-4145 | the slow search, for methods of interfaces first by their explicit names; its answer is the nearest implementation |
| TypeSystem.Metadata.ResolveDispatches | CLR/Core/TypeSystem.cpp:4111-4194 | the slow search finds the nearest implementation: the called method itself, or a virtual or instance method that is not abstract, with its number of arguments, its name (for interfaces the explicit one first) and a matching signature, in the nearest class on the way up that has one, the first there; none exactly if no class has one |
| TypeSystem.Metadata.FindsItself | CLR/Core/TypeSystem.cpp:4158-4190 | a search in the declaring class finds the method itself, abstract or not, exactly if it is a virtual or instance method and no method before it answers for it |
| TypeSystem.AllFindThemselves | CLR/Core/TypeSystem.cpp:4158-4190 | in metadata without duplicates (section II.22.26 of ECMA-335) every virtual or instance method does |
| MethodCache.VirtualMethodTable.Insert | CLR/Core/AVLTree.cpp:533-596 | the tree stays balanced with exactly the new key added, or reports a duplicate |
| MethodCache.VirtualMethodTable.Remove | CLR/Core/AVLTree.cpp:598-645 | exactly the key goes; the node freed may be another, whose payload has moved |
| MethodCache.VirtualMethodTable.FindHighest | CLR/Core/AVLTree.cpp:428-465 | the highest node is taken out and its payload reassigned |
| MethodCache.VirtualMethodTable.RemoveEntry | CLR/Core/Cache.cpp:157-176 | the in-use and free lists after a removal by payload reassignment |
| MethodCache.VirtualMethodTable.Evict | CLR/Core/Cache.cpp:110-135 | the least recently used key goes and all others stay in their order |
| MethodCache.VirtualMethodTable.FindVirtualMethod | CLR/Core/Cache.cpp:53-135 | the answer is always that of the slow search, and so the nearest implementation, on virtual and instance methods, in metadata without duplicates; in any metadata exactly if the shortcut does not apply or no method before the called one answers for it |
| MethodCache.VirtualMethodTable.HoldsMostRecent | CLR/Core/Cache.cpp:139-176 | in every reachable state the cache holds the most recently used distinct keys, with the resolver's answers |
| Lru.CacheIsRecency | CLR/Core/Cache.cpp:139-176 | over every history the cached list is the most recently used distinct keys, as many as fit |
| Rings.MoveEntryToTop | CLR/Core/Cache.cpp:316-347 | unlinking and relinking in the arrays keeps all rings disjoint doubly linked cycles, with the entry first in its ring |
| HashedCache.VirtualMethodTable.constructor | CLR/Core/Cache.cpp:180-211 | the initial links are proper rings |
| HashedCache.VirtualMethodTable.Probe | CLR/Core/Cache.cpp:283-312 | the walk ends, and finds the entry of the key or shows that no entry has it |
| HashedCache.VirtualMethodTable.Miss | CLR/Core/Cache.cpp:297-313 | the least recently used entry takes the new key, in its bucket and in front |
| HashedCache.VirtualMethodTable.FindVirtualMethod | CLR/Core/Cache.cpp:213-314 | likewise; and the contents are the most recently used keys |
| EventCache.EventBlocks.AppendNode | CLR/Core/Cache.cpp:413-432 | a block goes to the back of the list of its size, or of the list of the large ones, and no cell is lost |
| EventCache.EventBlocks.FindBest | CLR/Core/Cache.cpp:434-476 | one pass finds the smallest block that fits, the first of these, exactly if one is within the limit |
| EventCache.EventBlocks.ExtractNodeSlow | CLR/Core/Cache.cpp:434-504 | the smallest block that fits is cut to exactly what was asked for and the rest goes back to its list; fails exactly if none is within a quarter more |
| EventCache.EventBlocks.ExtractNodeFast | CLR/Core/Cache.cpp:506-535 | the block of that size that has waited longest |
| EventCache.EventBlocks.ExtractNode | CLR/Core/Cache.cpp:543-552 | no cell is lost or used twice |
| LockManager.LockEngine.FindLockObject | CLR/Core/Execution.cpp:2308-2356 | finds the live lock of a resource, by pointer or by search |
| LockManager.LockEngine.LockObject | CLR/Core/Execution.cpp:2666-2683 | the exact new state, field by field: one level more for the sub-thread if its thread has the lock, last in the queue and counted if another has, a new lock with it as the owner if there is none, or out of memory; safe exactly as said under Findings |
| LockManager.LockEngine.UnlockObject | CLR/Core/Execution.cpp:2685-2697 | succeeds exactly if the sub-thread holds the lock, which has then one level less; with the last one it goes to the first in the queue, who has one level and is counted no more, or is gone if the queue is empty |
| LockManager.LockEngine.IncrementOwnership | CLR/Core/CLR_RT_HeapBlock_Lock.cpp:134-171 | the thread that owns the lock goes deeper, any other is queued |
| LockManager.LockEngine.DecrementOwnership | CLR/Core/CLR_RT_HeapBlock_Lock.cpp:173-207 | exactly one level less |
| LockManager.LockEngine.ChangeOwner | CLR/Core/CLR_RT_HeapBlock_Lock.cpp:68-132 | first in, first out: the lock goes to the first request, or dies with its pointer cleared |
| LockManager.LockEngine.DestroyOwner | CLR/Core/CLR_RT_HeapBlock_Lock.cpp:50-66 | a destroyed sub-thread is no owner any more, and the lock is handed on if it was the last |
| LockManager.LockEngine.CreateRequest | CLR/Core/CLR_RT_HeapBlock_LockRequest.cpp:9-27 | the request is last in the queue and counted |
| LockManager.LockEngine.CheckLockRequests | CLR/Core/Execution.cpp:2604-2623 | of the requests for a thread's locks exactly those whose time is up are withdrawn, other locks are untouched, and counts stay right |
| LockManager.LockEngine.DeleteLockRequests | CLR/Core/Execution.cpp:2359-2393 | no request of the target is left although the search ends early, and every other is still there |
| LockManager.LockEngine.ChangeLockRequestCount | CLR/Core/Thread.cpp:78-98 | the counts of sub-thread and thread, and whether the thread waits |
| SyncMethods.Synchronizer.Call | CLR/Core/CLR_RT_StackFrame.cpp:190-199 | a new frame needs what its method's flags say |
| SyncMethods.Synchronizer.Synchronize | CLR/Core/Interpreter.cpp:636-686 | the method runs only when its frame holds all that it needed; otherwise one kind is pending |
| SyncMethods.Synchronizer.Acquire | CLR/Core/CLR_RT_StackFrame.cpp:741-805 | need becomes pending or held as the lock says |
| SyncMethods.Synchronizer.Pop | CLR/Core/CLR_RT_StackFrame.cpp:835-859 | the balance of frames and locks is kept through giving up and handing over |
| SyncMethods.Synchronizer.MonitorEnter | CLR/Libraries/CorLib/corlib_native_System_Threading_Monitor.cpp:8-45 | an entry by the program counts beside what frames hold |
| SyncMethods.Synchronizer.MonitorExit | CLR/Libraries/CorLib/corlib_native_System_Threading_Monitor.cpp:47-64 | the balance is kept exactly when the sub-thread had entered by itself or does not have the lock, and then nothing changes |
| SyncMethods.ExitsItsOwnLock | CLR/Core/CLR_RT_HeapBlock_Lock.cpp:173-207 | a run in which a synchronized method loses the balance |
| EventWaits.EventEngine.TryWaitForSignal | CLR/Core/CLR_RT_HeapBlock_WaitForObject.cpp:59-123 | a wait for all succeeds exactly if all are signaled and takes the signals of all its auto-reset events; a wait for any exactly if one is, is told the lowest such index and takes only that one's |
| EventWaits.ConsumedExactly | CLR/Core/CLR_RT_HeapBlock_WaitForObject.cpp:59-123 | of the signals that `TryWaitForSignal` leaves: wait-all has used up all its auto-reset ones, wait-any only that of the lowest index |
| EventWaits.EventEngine.SignalObject | CLR/Core/CLR_RT_HeapBlock_WaitForObject.cpp:125-143 | the waiting threads are tried in order until the signal is used up, and no thread that still waits could go on |
| EventWaits.RunMeans | CLR/Core/CLR_RT_HeapBlock_WaitForObject.cpp:125-143 | every thread freed had what it waited for and is told so, the others are told nothing and keep their order, and signals are lost only to freed threads that waited for them |
| EventWaits.FreesOne | CLR/Core/CLR_RT_HeapBlock_WaitForObject.cpp:125-143 | an auto-reset signal frees at most one thread, the first that it lets go on |
| EventWaits.RunLeaves | CLR/Core/CLR_RT_HeapBlock_WaitForObject.cpp:125-143 | afterwards no thread in the list has a satisfied wait |
| EventWaits.EventEngine.WaitForSignal | CLR/Core/CLR_RT_HeapBlock_WaitForObject.cpp:145-174 | the thread goes on at once exactly if satisfied, or joins the back of the list; refusals change nothing |
| EventWaits.EventEngine.CheckWait | CLR/Core/Execution.cpp:2587-2602 | a wait whose time is up ends without using a signal |
| EventWaits.EventEngine.Reset | CLR/Libraries/CorLib/corlib_native_System_Threading_WaitHandle.cpp:45-54 | the signal is taken back, and still no waiting thread could go on |
| Timers.Timer.SpawnTimer | CLR/Core/CLR_RT_HeapBlock_Timer.cpp:84-125 | the timer remembers its time and has none; a valid timer stays so exactly if the thread starts |
| Timers.Timer.LosesItsBeat | CLR/Core/CLR_RT_HeapBlock_Timer.cpp:84-125 | a run in which the thread starts at the second attempt: on the beat exactly if the time that means never is |
| Timers.Timer.Reschedule | CLR/Core/CLR_RT_HeapBlock_Timer.cpp:139-162 | the next time is on the beat: one period on or, when late, the first after now |
| Timers.Timer.ThreadTerminationCallback | CLR/Core/CLR_RT_HeapBlock_Timer.cpp:127-137 | a recurring timer is re-armed that way when its thread ends |
| Unicode.RoundTrip | CLR/Core/CLR_RT_UnicodeHelper.cpp:123-416 | on every string, to UTF-8 and back is the identity exactly if it has no high surrogate |
| Unicode.ConvertedBack | CLR/Core/CLR_RT_UnicodeHelper.cpp:123-416 | and so it is for the converters, with the limits that they need |
| Unicode.ConvertToUTF8 | CLR/Core/CLR_RT_UnicodeHelper.cpp:315-416 | the output is the encoding of sections 3 and 4 of RFC 3629 with a zero, or what fits; when it succeeds the cursor has stayed inside exactly if the run of high surrogates at the end is even or not reached |
| Unicode.BytesMean | CLR/Core/CLR_RT_UnicodeHelper.cpp:325-416 | what the encoder makes of each kind of unit, bit by bit (section 3 of RFC 3629, section 2.1 of RFC 2781), and where it stops |
| Unicode.ConvertFromUTF8 | CLR/Core/CLR_RT_UnicodeHelper.cpp:123-313 | the output is the decoding with a zero, or what comes before the first illegal byte or fits; it fails with nothing if the first byte is no lead byte; with a limit of no more bytes than there are the cursor stays inside |
| Unicode.UnitsMean | CLR/Core/CLR_RT_UnicodeHelper.cpp:137-300 | what the decoder makes of each kind of lead byte, bit by bit; it fails at a zero, a continuation byte, 0xC0, 0xC1, or anything from 0xF5 up |
| Unicode.EncodedWithin | CLR/Core/CLR_RT_UnicodeHelper.cpp:123-313 | what the encoder has made the decoder never leaves, whatever its limits |
| Unicode.WithinExactly | CLR/Core/CLR_RT_UnicodeHelper.cpp:325-416 | the encoder stays inside a string exactly if the run of high surrogates at its end is even, or the limit is used up before it |
| Unicode.WithinWhole | CLR/Core/CLR_RT_UnicodeHelper.cpp:325-416 | asked for the whole string, exactly if that run is even |
| Unicode.SafeLimits | CLR/Core/CLR_RT_UnicodeHelper.cpp:133-300 | the decoder stays inside all strings of a length exactly if its limit of bytes is no more, or the units asked for do not get it to the end |
| Unicode.DefaultLimitLeaves | CLR/Core/CLR_RT_UnicodeHelper.cpp:133-136 | the default limit takes the decoder over the end of a string of one byte |
| Unicode.CountsUnits | CLR/Core/CLR_RT_UnicodeHelper.cpp:17-73 | counting characters gives the length that decoding produces |
| Unicode.CountMeans | CLR/Core/CLR_RT_UnicodeHelper.cpp:17-73 | what each lead byte counts for, and that one that lacks a continuation byte, or is one, makes counting fail |
| Unicode.CountsBytes | CLR/Core/CLR_RT_UnicodeHelper.cpp:75-119 | counting bytes gives the length of the encoding exactly on well-formed strings, and -1 on others |
| FixedPoint.HeapBlock.SetFloatIEEE754 | CLR/Core/CLR_RT_HeapBlock.cpp:19-81 | of the literal's fields (section 3.4 of IEEE 754-2008): the value has its sign, and its magnitude is the largest number up to 0x7FFFFFFF not above significand times power of two, with ten binary places |
| FixedPoint.HeapBlock.SetDoubleIEEE754 | CLR/Core/CLR_RT_HeapBlock.cpp:83-145 | likewise in double precision, with sixteen binary places |
| ArmEmulator.ArithmeticExact | CLR/Core/Jitter_ARM.cpp:762-847 | for each of the eight operations result, N, Z, C and V are those of its exact unsigned and signed value (section A2.5.2 of the ARM Architecture Reference Manual) |
| ArmEmulator.State.Arithmetic | CLR/Core/Jitter_ARM.cpp:762-847 | the instruction stores that result and these flags, and moves the pc if it is the target |
| ArmEmulator.State.BlockDataTransfer | CLR/Core/Jitter_ARM.cpp:1037-1122 | each listed register at its place, up to the first address that memory does not accept; the base moves only if all went well |
| ArmEmulator.State.PushAndPop | CLR/Core/Jitter_ARM.cpp:1037-1122 | stored below the base and loaded again, all listed registers and the base are back (section A5.4), exactly if memory accepts their places |
| FlashLoader.LoaderEngine.AccessMemory | Application/TinyBooter/Commands.cpp:396-634 | chunks tile the interval, each inside one block; only bytes of the interval are written, and only blocks that it touches erased, none in front of a write and none that must not be changed, at which the access stops and fails; when the hardware obeys, what was asked for has been done, and the rest of every block that a write has begun is erased |
| FlashLoader.Covered | Application/TinyBooter/Commands.cpp:427-590 | every byte of the interval is in one chunk and its block |
| FlashLoader.LoaderEngine.VerifyContiguousData | Application/TinyBooter/Commands.cpp:664-725 | accepts exactly a first write and one that continues the interval in the same kind of sector |
| FlashLoader.LoaderEngine.EraseMemoryAndReset | Application/TinyBooter/Commands.cpp:651-662 | if the hardware obeys, nothing that was written and not verified is left |
| FlashLoader.LoaderEngine.VerifySignature | Application/TinyBooter/Commands.cpp:727-796 | data in flash is accepted exactly with a signature that covers the tracked interval, data in RAM with any of the right length; what is not accepted is erased |
| FlashLoader.LoaderEngine.MonitorReadMemory | Application/TinyBooter/Commands.cpp:1255-1274 | reads exactly while there is no unverified data, at most 1024 bytes and, if the hardware obeys, all that were asked for of these; erases it otherwise |
| FlashLoader.LoaderEngine.MonitorCheckMemory | Application/TinyBooter/Commands.cpp:1299-1316 | likewise |
| FlashLoader.LoaderEngine.MonitorEraseMemory | Application/TinyBooter/Commands.cpp:1318-1338 | likewise, and erasing leaves nothing unverified; the interval is erased if the hardware obeys, and nothing is if its first block must not be changed |
| FlashLoader.LoaderEngine.MonitorExecute | Application/TinyBooter/Commands.cpp:1340-1405 | likewise: nothing is launched while there is unverified data |
| FlashLoader.LoaderEngine.MonitorWriteMemory | Application/TinyBooter/Commands.cpp:1276-1297 | writes what it should, with the new interval; the tracker stays sound exactly as said under Findings |
| FlashLoader.LoaderEngine.LosesTrack | Application/TinyBooter/Commands.cpp:701-725 | a run in which the tracker loses a write to address 0 |
| FlashLoader.LoaderEngine.ProcessCommands | Application/TinyBooter/Commands.cpp:1255-1446 | over every run of commands unverified data stays inside the tracked interval |

## Left out

- Collector.Marker.Mark: says nothing of the code as written after a push has overrun; that a traversal of a heap comes to an overrun is shown for the operations of its stack (`OverrunIsReached`), not for a heap.
- Compactor.GarbageCollector.Compact: works on the sequence of blocks; that the bytes are copied and the free lists relinked in the same way is proved for insertion and allocation in `HeapCluster`, not again here. Addresses count heap blocks, and the headers of clusters hold no references. The packing statement is for heaps in which everything can move; beside fixed blocks the code leaves holes that a later pass could fill, and nothing is said of these.
- Compactor.GarbageCollector.TakeFree: works on the sequence of blocks, like `Compact`.
- Relocation.RelocationTable.Add: the table holds destinations; that a region's offset is stored as a 32-bit difference is not modelled.
- TypeSystem.Metadata.Resolve: when two signatures match is a parameter, and names are not cut to the length of the buffer that the explicit name is built in.
- Timers.Timer.Reschedule: times do not wrap at 64 bits.
- LockManager.LockEngine.DestroyOwner: one lock at a time; the destruction of a sub-thread as a whole, which may hand a lock to the destroyed sub-thread's own queued request, is not modelled.
- LockManager.LockEngine.CheckLockRequests: the lists of threads and the order of the engine's passes over them are not modelled.
- EventWaits.EventEngine.SignalObject: all threads in the list wait; suspended threads, which are relinked at the back with their wait kept, are not modelled.
- SyncMethods.Synchronizer.Pop: argument 0 is taken not to have been overwritten since the call; waits for synchronized methods have no time limit, as in the source; aborted threads are not modelled.
- Unicode.ConvertToUTF8: memory ends with the string; what a cursor reads beyond it is not modelled, only whether it gets there.
- FixedPoint.HeapBlock.SetFloatIEEE754: not-a-number and infinity are treated by the code as large magnitudes, and so they are here.
- ArmEmulator.State.Arithmetic: only the operations that add or subtract; the operand is given, so shifts and rotations are not modelled.
- FlashLoader.LoaderEngine.AccessMemory: one flash device; blocks that hold configuration, which are kept in a buffer, and the contents of RAM are not modelled; a check is a read, without its checksum; addresses do not wrap.
- FlashLoader.LoaderEngine.VerifySignature: the signature algorithm is a parameter, and the sector bit field, which no write marks, is not modelled.
- EventCache_Cleanup and the conversion of event blocks to free heap blocks: they only return what the cache holds.
- Weak references, weak delegate lists, application domains, transparent proxies, interior references and the persistence of objects: marking and compaction follow strong references only.
- Exceptions, their unwinding, native and jitted methods, and all IL instructions beyond the subset.
- Failed allocation of stack frames in the interpreter: it raises an exception.
- The lists of threads by priority and the quantum of the scheduler: fairness is not modelled.
- Fixed-point addition, subtraction and multiplication in the ARM emulation, and its register banks.
- Containers (`ArrayList`, `Stack`, `Queue`), reflection, debugger, drivers, and the S-record loader: easy members or no logic of their own.
