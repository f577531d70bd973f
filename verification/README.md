# TensorFlow: memory planning, sessions, variables and the Go binding

Dafny models of four parts of TensorFlow, with proofs of what they are for.
`dafny verify dfyconfig.toml` checks everything.

## What is modelled

**The TensorFlow Lite arena planner.** `ArenaPlanner.dfy` is the planner as a class with its vectors and its alias map;
`SimpleMemoryArena.dfy` is the arena it allocates from. Planning counts references, lets in-place operators share the
buffer of an input, and computes lifetimes; execution picks offsets, drops aliases that no longer hold, and resolves
pointers; re-planning forgets everything after a node. `InPlaceSharing.dfy` and `Lifetimes.dfy` say what planning should
compute, independently of the loops. `MemorySemantics.dfy` gives a graph two meanings: run in one byte array with
overlapping and aliased buffers, and run with one private buffer per tensor. Operators are arbitrary functions. The main
theorem is that every node reads the same values in both, and that the graph outputs are the same.
`LayoutExactness.dfy` shows exactly when they are, separately for every node's reads and for the graph outputs alone: no
node may overwrite a value that is still to be read, or on which an output still depends. For the outputs alone a late
reader counts only if an output depends on it. `PlanningExactness.dfy` applies this to the planner's alias map and shows
that its guards are not enough: a tensor that already is an alias, fans out through two pass-through operators and is
then overwritten on one branch makes a graph output wrong. `PlannedMemory.dfy` follows the class through planning and
any sequence of executing, forgetting and settling tensors again, and proves that what it computes is a placement the
theorems apply to, with every tensor pointing to its memory, but for two cases: `StrandedTensor.dfy` has a graph in
which an operator is handed a null pointer, `OutgrownTensor.dfy` one in which it is handed a buffer that is too small
after re-execution. `PlannedExactness.dfy` states the exact conditions for the planner's own placements.

**The graph/session protocol of the C API.** `SessionProtocol.dfy` is a step machine with any number of threads and
sessions: nodes are added and removed again, nodes are changed and the change recorded session by session, sessions
extend themselves, and deletes of graph and sessions race. A step ends where a thread goes for a mutex or lets others in
between. `SessionInvariants`, `SessionControl`, `SessionContents` and `SessionWarnings` prove what each step keeps,
`SessionSafety.dfy` states the results about all runs and `SessionCalls.dfy` what a call has achieved when it returns.
`NameIndex.dfy` is the index from names to operations.

**Variables.** `VariableLocking.dfy` is the ordered acquisition of mutexes, `LockingProtocol.dfy` the threads that use
it, `CopyOnWrite.dfy` the variables with their shared buffers, refined to plain values.

**The Go binding.** `TensorValues`, `TensorCodec` and `TensorDecoding` turn nested slices into tensors and back,
`AttrLists.dfy` packs and unpacks attribute lists through the C API, `GoSession.dfy` is the Run/Close protocol,
`FeedSort.dfy` the order of feeds.

## Assumptions

- Graphs are well-formed: nodes in dependency order, every tensor written by at most one node and read only after that,
  distinct variables, and temporaries that belong to one node.
- An operator reads all its inputs before it writes its outputs, depends on nothing else, and a pass-through operator
  copies the input whose buffer it may share. Variables are read by operators but not written.
- `SessionProtocol`: the client deletes the graph once, with no call on the graph in progress or to come except runs and
  deletes of its sessions, and deletes each session once, after its last run. The loop of `RecordMutation` iterates over
  a `gtl::FlatMap`, whose iterator refers to the stored warning, so that assigning through it sets the warning.
- `LockingProtocol`: mutexes are taken only through the ordered acquire, and the mode of a variable is turned off only
  by a thread that has its mutex for itself, as `DisableCopyOnReadOp` does.
- `CopyOnWrite`: readers copy in copy-on-read mode, as `ReadVariableOp` does, and an operation runs with the mutex of
  its variable held. The tensor that `TF_GetInputTensorFromVariable` hands out is a view for one write.
- `FeedSort`: operations are given by the addresses of their names, and the C outputs of one run are distinct.

## Where code and documentation differ

- The comment in `decodeTensor` (go/tensor.go:309-315) says that only the final part of a shape can be 0. The shape of a
  value can have zeros from any dimension on, and then the value is not rebuilt: `TensorDecoding.RoundTrip` gives the
  exact condition, `TensorDecoding.InnerZeroIsLost` a value.
- The comment above `IdentifyInPlaceTensors` (lite/arena_planner.cc:151-156) promises that tensors share only within the
  same arena. The guard lets a persistent output share an `ArenaRw` input, and if the sizes agree at execution such a
  tensor gets no memory and resolves to null (`StrandedTensor.PersistentTensorIsStranded`, `ReadThroughNull`).
  `PlannedMemory.PlanAndExecute` says that nothing else is left without memory when a plan is executed in one call, and
  decides it from the plan and the prepared tensors.
- The same comment asks for one reference to the input that a modifying operator shares, and the code asks it of the
  buffer's owner as well. That is not enough when an alias in between has two readers
  (`PlanningExactness.FanOutOfAliasIsUnsafe`).
- After a dynamic output has been resized the later operators are prepared again and the plan is executed again
  (lite/core/subgraph.cc:1769-1784). A persistent tensor keeps the buffer it has, whatever its size
  (lite/arena_planner.cc:549-552), so one that has grown is handed a block that is too small while the planner reports
  success (`OutgrownTensor.ScratchTooSmall`). `PlannedMemory.ExecuteAgain` tells from the prepared tensors and the
  records before the call exactly which tensors that happens to.
- A pass-through operator is documented to copy its first input (lite/core/c/common.h:1099-1104), and with the
  corresponding-output flag input N is documented to share with output N (lines 1105-1112). The planner ignores the
  flag and lets the first input that is eligible share with the first output. The theorems assume a copy of the input
  that is picked; `MemorySemantics.DocumentedCopiesSuffice` says when the documented copy is enough.
- The search for an offset (lite/simple_memory_arena.cc:329-333) compares gaps from the aligned offset but remembers them
  from the unaligned one. In this planner it still takes a tightest gap, because all offsets are multiples of the one
  alignment (`SimpleMemoryArena.ChosenIsTightest`; the condition is sufficient, not necessary); with mixed alignments it
  need not (`SimpleMemoryArena.MixedAlignmentMissesTightest`).
- `ExecuteAllocations` compares node numbers after a conversion to an unsigned type, so a last node of -1 means all
  nodes for the temporaries; the model follows the code.

## Model

| member | source | states |
|---|---|---|
| InPlaceSharing.CandidateIsFirst | tensorflow-master/tensorflow/lite/arena_planner.cc:175-194 | The slot chosen for sharing is the first of the three that holds an input which is present, has its own flag set and meets the conditions on sizes, references, graph inputs and outputs and types; -1 exactly if none does. |
| InPlaceSharing.SharesExactlyWhenAllowed | tensorflow-master/tensorflow/lite/arena_planner.cc:157-202 | In a graph in dependency order the first output of a node is an alias if and only if there is such an input and, if the node changes the data, the owner of its buffer has one reference; it is an alias of the owner of the first such input. |
| TfLiteGraph.CountIsMultiplicity | tensorflow-master/tensorflow/lite/arena_planner.cc:246-285 | The references that a list of tensors holds on one of them are its occurrences in the list. |
| InPlaceSharing.AliasMapIsSound | tensorflow-master/tensorflow/lite/arena_planner.cc:97-103 | The alias map is flat after planning: no owner is itself an alias, so one lookup finds the owner and resolution ends after one level; every alias stems from the one node that writes it. |
| InPlaceSharing.SingleWantedTensor | tensorflow-master/tensorflow/lite/arena_planner.cc:119-127 | In a buffer whose owner has one reference at most one tensor is still to be read at any time. |
| InPlaceSharing.InPlaceSafety | tensorflow-master/tensorflow/lite/arena_planner.cc:157-202 | Once a node writes its output over a shared buffer, no later node reads, and no graph output is, any tensor that was kept in the buffer, provided no alias that a pass-through node shares has a later reader (weaker than having one reader). |
| InPlaceSharing.OverwrittenIsNoOutput | tensorflow-master/tensorflow/lite/arena_planner.cc:133-137 | No graph output is ever kept in a buffer that some node overwrites, with no assumption on readers. |
| InPlaceSharing.OwnerIsRead | tensorflow-master/tensorflow/lite/arena_planner.cc:287-301 | The owner of a shared buffer is read by some node, so that it is counted. |
| Lifetimes.CountStandsStill | tensorflow-master/tensorflow/lite/arena_planner.cc:288-301 | A buffer's read count grows exactly at the nodes that read a tensor aliased to it. |
| Lifetimes.NoReadBeforeProduction | tensorflow-master/tensorflow/lite/arena_planner.cc:302-314 | Nobody reads a buffer, under any alias, before its owner is produced. |
| Lifetimes.DropReference | tensorflow-master/tensorflow/lite/arena_planner.cc:318-331 | Dropping one reference keeps the count equal to the reads still to come; the deallocation check cannot fail, and the last reference to go sets the release node. |
| Lifetimes.ReleaseStateAtEnd | tensorflow-master/tensorflow/lite/arena_planner.cc:327-336 | At the end each buffer's release node is the last node that reads a tensor aliased to it, and unassigned exactly if it is pinned, never allocated or never read. |
| Lifetimes.AliasesAreNeverReleased | tensorflow-master/tensorflow/lite/arena_planner.cc:322-328 | An alias is never deallocated: its reads count for the owner. |
| ArenaPlanner.ArenaPlanner.ResetAllocations | tensorflow-master/tensorflow/lite/arena_planner.cc:65-75 | All records and active allocations are cleared, the high-water mark with them. |
| ArenaPlanner.ArenaPlanner.CanShareInput | tensorflow-master/tensorflow/lite/arena_planner.cc:105-155 | Decides the sharing guards from the reference counts at hand, with loops over graph inputs and outputs. |
| ArenaPlanner.ArenaPlanner.IdentifyInPlaceTensors | tensorflow-master/tensorflow/lite/arena_planner.cc:157-202 | The loop over the nodes makes the first output of a node an alias exactly if an input that is flagged, present and meets every condition may share its buffer and the owner's references allow it, and then of the owner of the first such input; nothing else becomes an alias. |
| ArenaPlanner.ArenaPlanner.PlanAllocate | tensorflow-master/tensorflow/lite/arena_planner.cc:218-226 | Succeeds exactly if the tensor is already allocated or not yet released; sets the first node once only. |
| ArenaPlanner.ArenaPlanner.PlanDeallocate | tensorflow-master/tensorflow/lite/arena_planner.cc:228-237 | Succeeds exactly if the tensor was never allocated or not yet released; sets the release node once only. |
| ArenaPlanner.ArenaPlanner.PinFromStart | tensorflow-master/tensorflow/lite/arena_planner.cc:250-270 | Variables and inputs gain one reference per occurrence, are allocated at node 0 and queued there, and nothing else changes. |
| ArenaPlanner.ArenaPlanner.CountBufferReads | tensorflow-master/tensorflow/lite/arena_planner.cc:287-301 | Per buffer: pinned references plus all reads through any alias. |
| ArenaPlanner.ArenaPlanner.AllocateOutputs | tensorflow-master/tensorflow/lite/arena_planner.cc:306-314 | Exactly the outputs of the node get it as first node and enter its queue; the consistency check never fails. |
| ArenaPlanner.ArenaPlanner.ReleaseInput | tensorflow-master/tensorflow/lite/arena_planner.cc:320-330 | One input of one node gives up its reference; the check of the deallocation never fails on a graph in dependency order. |
| ArenaPlanner.ArenaPlanner.PlanAllocations | tensorflow-master/tensorflow/lite/arena_planner.cc:204-337 | Never fails on a well-formed graph; afterwards first nodes, release nodes, queues, alias map and reference counts are exactly those of the specification. |
| AllocationOrder.AllocatedBeforeIsStrictWeakOrder | tensorflow-master/tensorflow/lite/arena_planner.cc:445-467 | The comparator handed to the sort is irreflexive and transitive, and so is incomparability. |
| AllocationOrder.SortForAllocation | tensorflow-master/tensorflow/lite/arena_planner.cc:469-471 | A permutation in the comparator's order. |
| AllocationOrder.OrderInFields | tensorflow-master/tensorflow/lite/arena_planner.cc:445-467 | That order, over the tables: tensors first needed at node 0 and never released come first, by index; the others from large to small, those of one size by first use. |
| SimpleMemoryArena.AlignTo | tensorflow-master/tensorflow/lite/simple_memory_arena.cc:68-83 | The least multiple of the alignment that is not below the offset. |
| SimpleMemoryArena.FindOffset | tensorflow-master/tensorflow/lite/simple_memory_arena.cc:313-345 | The offset is aligned and overlaps no allocation whose interval meets the request. It is the start of a gap between these into which the buffer fits, if there is one, and right above them all otherwise; while the active offsets are multiples of the alignment no other gap would leave less room; it is found whenever the sizes fit into 64 bits. |
| SimpleMemoryArena.ChosenIsTightest | tensorflow-master/tensorflow/lite/simple_memory_arena.cc:318-337 | Best fit: among all gaps that are large enough the search ends in one with the least room left over, for buffers whose offsets are multiples of the alignment, which the planner's always are; for other lists that is not necessary. |
| SimpleMemoryArena.BestLiesInGap | tensorflow-master/tensorflow/lite/simple_memory_arena.cc:318-345 | The offset in terms of gaps, whatever the order in which the search meets them: a gap reaches from the end of a buffer in use, or the start of the arena, to the next buffer in use. |
| SimpleMemoryArena.TightestLiesInTightestGap | tensorflow-master/tensorflow/lite/simple_memory_arena.cc:318-337 | Of all gaps into which the buffer fits, the one taken leaves the least room above the buffer. |
| SimpleMemoryArena.MixedAlignmentMissesTightest | tensorflow-master/tensorflow/lite/simple_memory_arena.cc:329-333 | Without that, three allocations for which the search passes over the tighter of two gaps. |
| SimpleMemoryArena.FoundIsBest | tensorflow-master/tensorflow/lite/simple_memory_arena.cc:318-337 | An offset in a gap that fits, or at the end if no gap fits, is aligned and disjoint from all allocations that meet the request. |
| SimpleMemoryArena.InsertKeepsOrder | tensorflow-master/tensorflow/lite/simple_memory_arena.cc:350-354 | Inserting behind equal offsets keeps the active list sorted and adds exactly the new record. |
| SimpleMemoryArena.Arena.Allocate | tensorflow-master/tensorflow/lite/simple_memory_arena.cc:293-357 | A granted buffer is disjoint from every active one that it meets in time, and in a tightest gap while all offsets are multiples of the alignment, which they remain; the list, the record and the high-water mark are exactly updated; a failure leaves the arena as it was and needs a bad alignment or sizes that can overflow. |
| SimpleMemoryArena.Arena.PurgeAfter | tensorflow-master/tensorflow/lite/simple_memory_arena.cc:250-263 | Keeps exactly the allocations first used at or before the node. |
| SimpleMemoryArena.Arena.PurgeActiveAllocs | tensorflow-master/tensorflow/lite/simple_memory_arena.cc:265-278 | Keeps exactly the allocations still in use at the node. |
| SimpleMemoryArena.Arena.CalculateActiveAllocs | tensorflow-master/tensorflow/lite/simple_memory_arena.cc:280-289 | The active list becomes exactly the records alive at the node, sorted by offset. |
| SimpleMemoryArena.Arena.Commit | tensorflow-master/tensorflow/lite/simple_memory_arena.cc:359-371 | Succeeds exactly if the block is large enough or memory is granted; then all offsets below the high-water mark are backed. |
| SimpleMemoryArena.Arena.ResolveAlloc | tensorflow-master/tensorflow/lite/simple_memory_arena.cc:373-387 | Succeeds exactly for records inside the committed block and gives an address inside it, null for empty records. |
| ArenaPlanner.ArenaPlanner.GetTensorsToAllocate | tensorflow-master/tensorflow/lite/arena_planner.cc:474-485 | Exactly the tensors queued at the nodes of the range. |
| ArenaPlanner.ArenaPlanner.SelectTensors | tensorflow-master/tensorflow/lite/arena_planner.cc:493-506 | Exactly the arena tensors whose memory is smaller than their size, and all persistent ones. |
| ArenaPlanner.ArenaPlanner.CreateTensorAllocationVector | tensorflow-master/tensorflow/lite/arena_planner.cc:442-472 | A permutation of the list: first the tensors needed from node 0 to the end, by index, then the others from large to small, those of one size by first use. |
| ArenaPlanner.ArenaPlanner.AllocateTensor | tensorflow-master/tensorflow/lite/arena_planner.cc:522-560 | A tensor keeps sharing exactly if its owner is still an arena tensor of its size; otherwise its alias is dropped and it gets a record of its planned interval, disjoint from all records that meet it. No other record changes; it succeeds while there is room. |
| ArenaPlanner.ArenaPlanner.AllocateInArena | tensorflow-master/tensorflow/lite/arena_planner.cc:543-548 | The buffer gets its planned interval and goes into a tightest gap among the active ones. |
| ArenaPlanner.ArenaPlanner.AllocatePersistent | tensorflow-master/tensorflow/lite/arena_planner.cc:549-560 | A persistent tensor gets a buffer once, for good, in a tightest gap. |
| ArenaPlanner.ArenaPlanner.CalculateAllocations | tensorflow-master/tensorflow/lite/arena_planner.cc:487-564 | The whole range: which tensors are allocated, which aliases survive, what every record is afterwards, and that records that meet in time stay disjoint. |
| ArenaPlanner.ArenaPlanner.AssignTemporaries | tensorflow-master/tensorflow/lite/arena_planner.cc:347-361 | Temporaries of the nodes in the range live exactly at their node; a negative last node means all nodes; nothing else is touched. |
| ArenaPlanner.ArenaPlanner.ResolveTensorAllocation | tensorflow-master/tensorflow/lite/arena_planner.cc:580-612 | A tensor that shares in the same arena gets its owner's pointer, any other its own; one level of recursion; nothing else is touched. |
| ArenaPlanner.ArenaPlanner.Commit | tensorflow-master/tensorflow/lite/arena_planner.cc:431-440 | Succeeds if memory is granted; then both blocks cover their high-water marks, and unless one has moved every tensor that pointed to its memory still does. |
| ArenaPlanner.ArenaPlanner.ExecuteAllocations | tensorflow-master/tensorflow/lite/arena_planner.cc:339-382 | Called in sequence it keeps the plan and the disjointness of records that meet, and it succeeds unless sizes can overflow or memory is refused; aliases are only dropped, and only by tensors that needed memory; every tensor shares or owns memory, never both; pointers are renewed if a block has moved and kept otherwise. |
| ArenaPlanner.ArenaPlanner.ResetAllocationsAfter | tensorflow-master/tensorflow/lite/arena_planner.cc:77-95 | Erases exactly the arena records first used after the node, with their pointers, and keeps the arena invariant from the node on. |
| MemorySemantics.WantedIsActive | tensorflow-master/tensorflow/lite/arena_planner.cc:318-331 | A tensor that is still to be read, or is an output, has its owner's interval still open. |
| MemorySemantics.ActiveBuffersDisjoint | tensorflow-master/tensorflow/lite/simple_memory_arena.cc:293-357 | Two buffers in use at the same node do not overlap. |
| MemorySemantics.ClassAgrees | tensorflow-master/tensorflow/lite/arena_planner.cc:157-202 | With private buffers, all tensors of one alias class that are still wanted have the same value: sharing loses nothing. |
| MemorySemantics.StepAgrees | tensorflow-master/tensorflow/lite/arena_planner.cc:303-333 | One node run in the shared arena and with private buffers keeps all wanted values in agreement. |
| MemorySemantics.RunsAgree | tensorflow-master/tensorflow/lite/arena_planner.cc:303-333 | Any prefix of the graph does. |
| MemorySemantics.MemoryPlanningPreservesMeaning | tensorflow-master/tensorflow/lite/arena_planner.cc:157-337 | Running the graph in overlapping, aliased memory gives every node the inputs, and the user the graph outputs, of one private buffer per tensor, for all operators, inputs, scratch contents and placements. |
| MemorySemantics.DocumentedCopiesSuffice | tensorflow-master/tensorflow/lite/core/c/common.h:1099-1104 | Operators that do what is documented, copy their first input to their first output, are what the meaning theorem needs if and only if the planner lets each pass-through operator share its first input. |
| LayoutExactness.SafePreserves | tensorflow-master/tensorflow/lite/arena_planner.cc:157-337 | For an observer of all reads, or of the graph outputs alone: the two runs look the same to the observer if no node overwrites a value that matters to it. |
| LayoutExactness.HazardShows | tensorflow-master/tensorflow/lite/arena_planner.cc:194-200 | If a node overwrites a value that matters to the observer, some operators that honour the pass-through contract carry the wrong value along a chain of nodes to where the observer looks. |
| LayoutExactness.PreservedExactlyWhenSafe | tensorflow-master/tensorflow/lite/arena_planner.cc:157-337 | Both together: for either observer, the runs agree for all operators if and only if no node overwrites a buffer with a value that matters to the observer; aliases may have been dropped, as long as the original of each copy that shares a buffer is in it. |
| LayoutExactness.SafeForOutputs | tensorflow-master/tensorflow/lite/arena_planner.cc:157-337 | What is safe for every read is safe for the graph outputs. |
| PlanningExactness.HazardIsObservable | tensorflow-master/tensorflow/lite/arena_planner.cc:194-200 | If a value that is still to be read is overwritten, some operators that honour the pass-through contract make a node read a wrong value, and make a graph output wrong if one depends on the value. |
| PlanningExactness.PreservesMeaningExactlyWhenInPlaceSafe | tensorflow-master/tensorflow/lite/arena_planner.cc:157-202 | With every planned alias in force, every node's reads and the graph outputs are right for all operators if and only if no node overwrites a buffer that holds a value still to be read. |
| PlanningExactness.FanOutOfAliasIsUnsafe | tensorflow-master/tensorflow/lite/arena_planner.cc:119-127 | A concrete graph of five nodes that the planner's guards accept and whose output comes out wrong for some operators: an alias fans out through two pass-through nodes and one branch is then overwritten. |
| PlannedMemory.ExecuteNext | tensorflow-master/tensorflow/lite/core/subgraph.cc:1576-1606 | Executing the plan for the next range of nodes: all tensors of the nodes so far share or own memory and point to it, tensors that can share go on sharing, persistent tensors keep the buffers they have, and it fails only if sizes can overflow or memory is refused. |
| PlannedMemory.Settle | tensorflow-master/tensorflow/lite/core/subgraph.cc:1586-1590 | Between two calls operators may give every tensor of the nodes still to come another size or type, those with persistent memory included, and add temporaries, without disturbing what has been placed. |
| PlannedMemory.Forget | tensorflow-master/tensorflow/lite/arena_planner.cc:77-95 | Forgetting everything after a node leaves exactly the state of having executed the nodes up to it: of the later tensors only persistent ones keep a buffer; records and pointers of the earlier ones stay. |
| PlannedMemory.ExecuteAgain | tensorflow-master/tensorflow/lite/core/subgraph.cc:1769-1784 | Forgetting, preparing the later operators again with any other sizes and types of their tensors, and executing again gives the state of one execution. A tensor then has memory if and only if it is not stranded and neither it nor its owner has kept a buffer that is too small or in the wrong arena, which is told from the prepared tensors and the records before the call. It fails only if sizes can overflow, memory is refused, or a tensor with persistent memory becomes an arena tensor. |
| PlannedMemory.OwnerIsHoused | tensorflow-master/tensorflow/lite/arena_planner.cc:524-548 | After the plan has been executed, the owner of a tensor that still shares is itself in use and, unless it has kept a buffer that does not fit, has an allocation of its own of the same size in the right arena. |
| PlannedMemory.MemoryUnlessStranded | tensorflow-master/tensorflow/lite/arena_planner.cc:580-612 | An arena or persistent tensor that is in use has enough memory in the committed block of its arena, its own or its owner's, and points to it, if and only if it is not a persistent tensor that shares an `ArenaRw` buffer of its size and no buffer kept from before is too small for it or in the wrong arena. The former has no record and a null pointer, the latter points to the smaller buffer; all other buffers have exactly the size of the tensor. |
| PlannedMemory.MemoryExactlyWhenNothingStranded | tensorflow-master/tensorflow/lite/arena_planner.cc:524-548 | All tensors in use have memory if and only if no persistent tensor shares an `ArenaRw` buffer of its size and every buffer kept from before is large enough and in the right arena. |
| PlannedMemory.PointsIntoLayout | tensorflow-master/tensorflow/lite/arena_planner.cc:580-612 | Every arena tensor in use that has not outgrown its memory points to the block's base plus the offset of the buffer that the layout has it in. |
| PlannedMemory.PlannedMemoryIsReadyToRun | tensorflow-master/tensorflow/lite/core/subgraph.cc:1592-1606 | What planning and execution leave behind, in one call or in several, is a placement that meets every assumption of the meaning theorem, if and only if no persistent tensor shares an `ArenaRw` buffer of its size; for all executions whose kept buffers are large enough. |
| PlannedMemory.PlannedGraphRunsCorrectly | tensorflow-master/tensorflow/lite/core/subgraph.cc:1592-1606 | Plan, execute any number of times, run: reads and outputs are those of private buffers, if no aliased input of a pass-through node has a later reader, no persistent tensor shares an `ArenaRw` buffer of its size and every buffer kept from before is large enough and in the right arena. |
| PlannedMemory.PlanAndExecute | tensorflow-master/tensorflow/lite/core/subgraph.cc:1592-1606 | The caller's sequence: it fails only if the alignment is none the arenas have, sizes can overflow or memory is refused; then every tensor in use has memory and points to it exactly if it is not stranded, which is told from the plan and the prepared tensors alone, and arena tensors point to their place in the layout. |
| PlannedMemory.Replan | tensorflow-master/tensorflow/lite/core/subgraph.cc:1773-1783 | Forgetting and re-executing from a node leaves the record of everything first used at or before the node, and of every persistent tensor with memory, unchanged. |
| PlannedMemory.StartOver | tensorflow-master/tensorflow/lite/core/subgraph.cc:1027-1033 | After an input has been resized all memory is forgotten, persistent memory included, but not the plan: the state in which nothing has been executed yet. |
| PlannedMemory.ExecuteFromStart | tensorflow-master/tensorflow/lite/core/subgraph.cc:1027-1036 | Executing the old plan from the first node with any new sizes: every tensor in use has memory of exactly its size if and only if it is not stranded, and it fails only if the alignment is none the arenas have, sizes can overflow or memory is refused. |
| OutgrownTensor.ScratchMayGrow | tensorflow-master/tensorflow/lite/core/subgraph.cc:1769-1784 | A concrete graph of two nodes, the first with a dynamic output, in which persistent scratch memory of the second node grows from 8 to 16 bytes between two executions, as operators that are prepared again may make it. |
| OutgrownTensor.ScratchTooSmall | tensorflow-master/tensorflow/lite/arena_planner.cc:549-560 | For this graph the contracts say that execution and re-execution fail only if memory is refused, and that a success leaves the node with a pointer to 8 bytes for a tensor of 16. |
| StrandedTensor.PersistentTensorIsStranded | tensorflow-master/tensorflow/lite/arena_planner.cc:138-144 | A concrete graph of three nodes in which a persistent output shares an `ArenaRw` input; there is no late reader. |
| StrandedTensor.ReadThroughNull | tensorflow-master/tensorflow/lite/arena_planner.cc:580-612 | For this graph the contract says that planning and execution fail only if memory is refused, and that a success leaves the tensor of eight bytes, which node 2 reads, with a null pointer. |
| PlannedExactness.PlannedLayoutIsCoherent | tensorflow-master/tensorflow/lite/arena_planner.cc:524-548 | If pass-through operators give their output the size of their input, dropping aliases never separates a copy that shares a buffer from its original. |
| PlannedExactness.PlannedGraphIsExact | tensorflow-master/tensorflow/lite/core/subgraph.cc:1592-1606 | In the memory that the planner computes, if nothing is stranded or outgrown, all runs are right for an observer of all reads, or of the outputs alone, if and only if no node overwrites a value that matters to the observer. |
| SessionInvariants.CollectNewNodes | tensorflow-master/tensorflow/c/c_api.cc:320-330 | The loop collects exactly the op nodes with ids from the session's counter on that have not been removed, in increasing order. |
| SessionInvariants.LiveOpsExact | tensorflow-master/tensorflow/c/c_api.cc:324-330 | The ids collected by an Extend are exactly the live op nodes of the range, each once, in increasing order. |
| SessionContents.ContentsFinishExtend | tensorflow-master/tensorflow/c/c_api.cc:336-342 | A delivery keeps what a session has been sent exact, and any change that raced with it is still pending for the session. |
| SessionContents.ContentsCheck | tensorflow-master/tensorflow/c/c_api.cc:223-232 | Looking at one session leaves no outdated copy of the changed node unnoticed in it. |
| SessionContents.ContentsChange | tensorflow-master/tensorflow/c/c_api.cc:2551-2596 | A change is pending for every registered session at once. |
| SessionWarnings.JustifiedCheck | tensorflow-master/tensorflow/c/c_api.cc:223-232 | A warning is set only where the session does run an outdated copy. |
| SessionWarnings.JustifiedFinishExtend | tensorflow-master/tensorflow/c/c_api.cc:336-342 | A delivery never makes an outstanding warning pointless. |
| SessionSafety.ProceedKeepsInv | tensorflow-master/tensorflow/c/c_api.cc:219-345 | Every step of every call keeps locks, registration, contents, warnings and lifetime consistent. |
| SessionSafety.RunsKeepInv | tensorflow-master/tensorflow/c/c_api.cc:219-345 | Hence every run does, with any number of threads and sessions. |
| SessionSafety.WarningsAreExact | tensorflow-master/tensorflow/c/c_api.cc:219-234 | No missed mutation and no spurious one: with the graph mutex free, a session has a warning if and only if it has a copy of a node older than a recorded change made since its warning was last logged. |
| SessionSafety.SentExactlyOnce | tensorflow-master/tensorflow/c/c_api.cc:318-342 | What a session has been sent is exactly the live op ids below its counter, each once, increasing, whatever id gaps, changes and failed Extends came in between. |
| SessionSafety.OnlySuccessAdvances | tensorflow-master/tensorflow/c/c_api.cc:336-342 | The counter and the delivered copies of a session change only in a successful Extend of that session, which sends exactly what lies in between; how far that is, `SessionCalls.ExtendDeliversEverything` says. |
| SessionCalls.TakeSnapshot | tensorflow-master/tensorflow/c/c_api.cc:318-335 | What an Extend copies is what that loop collects. |
| SessionCalls.ExtendDeliversEverything | tensorflow-master/tensorflow/c/c_api.cc:305-342 | If a thread leaves the graph mutex with an Extend of a session and the Extend succeeds, in any run, the session's counter is the number of node ids the graph had then, and every live op of that time has been sent. |
| SessionCalls.NothingIsMissing | tensorflow-master/tensorflow/c/c_api.cc:307-345 | An Extend that finds nothing new has left nothing out. |
| SessionCalls.NodesStayThroughout | tensorflow-master/tensorflow/c/c_api.cc:1042-1078 | Nodes of finished additions are never removed or turned into others, in any run. |
| SessionCalls.AdditionEnds | tensorflow-master/tensorflow/c/c_api.cc:1042-1078 | From an addition's first step to its end, in any run: the nodes stand behind the others as they were asked for, or their ids are a gap; no other node is touched. |
| SessionCalls.MutationWarns | tensorflow-master/tensorflow/c/c_api.cc:219-234 | From a change of a node to the end of its recording, in any run: every session in the table that had run past the node has a warning. |
| SessionCalls.NewSessionIsBlank | tensorflow-master/tensorflow/c/c_api.cc:2230-2246 | A new session is in the table with no warning, and has been sent nothing. |
| SessionCalls.LoadedSessionHasAll | tensorflow-master/tensorflow/c/c_api.cc:2263-2308 | A session is loaded into a graph without operations only, and has received every operation of it. |
| SessionCalls.FailedLoadLeavesNothing | tensorflow-master/tensorflow/c/c_api.cc:2263-2308 | A load that fails leaves no session, and no nodes in a graph that had operations. |
| SessionCalls.DeletedSessionIsGone | tensorflow-master/tensorflow/c/c_api.cc:2315-2332 | When TF_DeleteSession returns, in any run, the session is gone, from the graph's table as well. |
| SessionSafety.NoUseAfterFree | tensorflow-master/tensorflow/c/c_api.cc:2315-2328 | No thread waits for or works on a graph that is deleted or about to be. |
| SessionSafety.FreedExactlyOnce | tensorflow-master/tensorflow/c/c_api.cc:1582-1589 | The graph is deleted at most once, and is deleted or being deleted, by one thread, exactly when its deletion was requested and no session is left. |
| SessionSafety.NeverDeadlocked | tensorflow-master/tensorflow/c/c_api.cc:293-348 | While any call runs, some running call can take its next step. |
| SessionSafety.MutexWaiterMoves | tensorflow-master/tensorflow/c/c_api.cc:223-224 | A thread that goes for a session mutex under the graph mutex can lock it, or the mutex is held by an Extend in flight, which needs no mutex to end. |
| NameIndex.Graph.FinishOperation | tensorflow-master/tensorflow/c/c_api.cc:1042-1076 | Succeeds exactly for a new name with both steps in order; then map and live operations gain the one entry. A failure changes neither, though it may leave an id gap. |
| NameIndex.Graph.ImportGraphDef | tensorflow-master/tensorflow/c/c_api.cc:1749-1763 | After an import of new, distinct names the map again is exactly the map from names to live operations; a failed import changes nothing. |
| NameIndex.Graph.OperationByName | tensorflow-master/tensorflow/c/c_api.cc:1591-1599 | Finds the live operation of the name, or none exactly if there is none. |
| NameIndex.Graph.NextOperation | tensorflow-master/tensorflow/c/c_api.cc:1601-1622 | Skips removed nodes only, and says there is no operation left exactly at the end. |
| NameIndex.Graph.Operations | tensorflow-master/tensorflow/c/c_api.h:685-689 | The documented iteration ends and gives every live operation once, in id order. |
| NameIndex.LiveIdsExact | tensorflow-master/tensorflow/c/c_api.cc:1610-1618 | The list of live ids is exact and increasing. |
| VariableLocking.SortByAddress | tensorflow-master/tensorflow/c/kernels_experimental.cc:416-417 | Every position occurs, in strictly increasing order of addresses. |
| VariableLocking.LockInputsInOrder | tensorflow-master/tensorflow/c/kernels_experimental.cc:383-436 | Acquires, each once and in strictly increasing order, exactly the non-null mutexes of reference inputs and of resources that are found, and nothing if neither locking nor a resource is involved; the variables are exactly those of the resources found, and the mutex of each of them is acquired. |
| LockingProtocol.RequestOf | tensorflow-master/tensorflow/c/kernels_experimental.cc:383-436 | What the acquire computes from the inputs of a kernel is an ordered request: the threads of the protocol lock what their inputs demand, the mutexes of their resource variables among it. |
| LockingProtocol.MutualExclusion | tensorflow-master/tensorflow/c/kernels_experimental.cc:426-436 | In any run, two threads hold one mutex only if both have asked to share it. |
| LockingProtocol.NeverDeadlocked | tensorflow-master/tensorflow/c/kernels_experimental.cc:403-436 | Threads that take mutexes only through the ordered acquire never deadlock, shared or exclusive, even if readers have to queue behind waiting writers. |
| LockingProtocol.FarthestMoves | tensorflow-master/tensorflow/c/kernels_experimental.cc:416-436 | If everybody waits, the thread that wants the highest address gets it. |
| LockingProtocol.SparseReadsReturnEarly | tensorflow-master/tensorflow/c/kernels_experimental.cc:78-80 | Under a sparse request, every sparse read of a variable of the request finds copy-on-read mode on and locks nothing. |
| LockingProtocol.RelockingNeverEnds | tensorflow-master/tensorflow/c/kernels_experimental.cc:82-85 | A sparse read that does go for a mutex of its own request waits for ever; this happens only without the sparse flag. |
| LockingProtocol.DenseHolderGetsStuck | tensorflow-master/tensorflow/c/kernels_experimental.cc:436-447 | A run in which it does happen. |
| CopyOnWrite.VariableStore.EnsureSparseVariableAccess | tensorflow-master/tensorflow/c/kernels_experimental.cc:71-119 | Turns the mode on with no value changed, and then nobody shares the variable's buffer; copies only if somebody does and the mode was off, and fails exactly if that copy cannot be had. |
| CopyOnWrite.VariableStore.PrepareToUpdateVariable | tensorflow-master/tensorflow/c/kernels_experimental.cc:121-157 | No value changes and the variable owns its buffer alone; it is copied only if it is shared or in copy-on-read mode, and fails exactly if that copy cannot be had. |
| CopyOnWrite.VariableStore.AssignVariable | tensorflow-master/tensorflow/c/kernels_experimental.cc:177-223 | The variable has the value, unless shapes disagree where they are checked or a copy cannot be made; no other variable and no tensor changes. |
| CopyOnWrite.VariableStore.AssignUpdateVariable | tensorflow-master/tensorflow/c/kernels_experimental.cc:256-291 | If the shapes agree and a copy is not needed or can be had, the variable keeps its shape and gets what the update makes of its own data and the data of the value, in this order; all other variables and all tensors keep their contents. Otherwise nothing changes. |
| CopyOnWrite.VariableStore.WriteVariable | tensorflow-master/tensorflow/c/kernels_experimental.cc:452-487 | A kernel that writes through the tensor it was handed changes the data of that variable to what it makes of them, and nothing else. |
| CopyOnWrite.VariableStore.ReadVariable | tensorflow-master/tensorflow/core/kernels/resource_variable_ops.cc:155-182 | A read shares the buffer or copies it, and copies in copy-on-read mode; it fails exactly if such a copy cannot be had. |
| CopyOnWrite.VariableStore.DisableCopyOnReadMode | tensorflow-master/tensorflow/core/kernels/resource_variable_ops.cc:391-409 | Leaving the mode changes no value. |
| CopyOnWrite.VariableStore.Run | tensorflow-master/tensorflow/c/kernels_experimental.cc:71-291 | Any sequence of these operations behaves as if every variable and every tensor had a value of its own; sole ownership in copy-on-read mode is kept by every step. |
| CopyOnWrite.ReadsAreSnapshots | tensorflow-master/tensorflow/c/kernels_experimental.cc:256-291 | What has been read stays as it was read, whatever happens to the variable afterwards. |
| TensorCodec.ShapeAndDataTypeOf | tensorflow-master/tensorflow/go/tensor.go:426-451 | Succeeds exactly if sibling slices on the first path agree and the kind is supported; the shape is the lengths of the first path, 0 below an empty list. |
| TensorCodec.DisagreeingSiblings | tensorflow-master/tensorflow/go/tensor.go:432-440 | The check on the first path refuses no rectangular value. |
| TensorCodec.EncodeTensorWithSlices | tensorflow-master/tensorflow/go/tensor.go:491-530 | Succeeds exactly if the value has the shape; writes its elements in order and reports how much; the address panic is unreachable. |
| TensorCodec.NewTensor | tensorflow-master/tensorflow/go/tensor.go:89-135 | Succeeds exactly on rectangular values of a supported kind; writes exactly the elements in order, in the bytes that Go's types take (1 to 16, and 24 for a string), so the size error is unreachable. |
| TensorValues.ConformsToFirstPath | tensorflow-master/tensorflow/go/tensor.go:426-443 | A rectangular value has the shape of its first path. |
| TensorValues.FlattenCount | tensorflow-master/tensorflow/go/tensor.go:471-477 | A value has as many elements as the product of its shape. |
| TensorDecoding.UnflattenFlatten | tensorflow-master/tensorflow/go/tensor.go:271-346 | Grouping from the outside inwards undoes flattening. |
| TensorDecoding.FlattenUnflatten | tensorflow-master/tensorflow/go/tensor.go:271-346 | And the other way round. |
| TensorDecoding.GroupLevel | tensorflow-master/tensorflow/go/tensor.go:318-343 | One round of the loop turns the nodes at one depth into the nodes one level up, inside the bounds of the backing memory. |
| TensorDecoding.DecodeTensor | tensorflow-master/tensorflow/go/tensor.go:271-346 | Gives the nested value that the elements make up if no dimension but the last is 0 or the first one is, and an empty list otherwise; never reaches outside the backing memory, for any shape. |
| TensorDecoding.RoundTrip | tensorflow-master/tensorflow/go/tensor.go:89-135 | Encoding and decoding gives back the nested value if and only if no dimension but the last is 0 or the first one is. |
| TensorDecoding.InnerZeroIsLost | tensorflow-master/tensorflow/go/tensor.go:309-317 | A concrete value that is lost: two empty rows of a three-dimensional slice come back as an empty list. |
| AttrLists.StringListMetadata | tensorflow-master/tensorflow/c/c_api.cc:1275-1278 | The reported size is the length of all strings together. |
| AttrLists.ShapeListMetadata | tensorflow-master/tensorflow/c/c_api.cc:1283-1288 | The reported size is the number of all known dimensions together. |
| AttrLists.GetAttrStringList | tensorflow-master/tensorflow/c/c_api.cc:1363-1388 | Fails exactly if the storage is too small; otherwise the pieces lie one behind the other, each reported with place and length, and nothing past the storage size is written. |
| AttrLists.GetAttrShapeList | tensorflow-master/tensorflow/c/c_api.cc:1431-1460 | Likewise for shapes; unknown rank is reported as -1 and takes no room. |
| AttrLists.PieceLies | tensorflow-master/tensorflow/c/c_api.cc:1363-1388 | Every piece is found at its place, and pieces are disjoint. |
| AttrLists.SetAttrShapeList | tensorflow-master/tensorflow/c/c_api.cc:931-945 | Negative numbers of dimensions mean unknown rank; any other shape is read from its place. |
| AttrLists.SetAttrShapeListHelper | tensorflow-master/tensorflow/go/graph.go:24-41 | The places computed from the ranks are those of the pieces. |
| AttrLists.SetShapes | tensorflow-master/tensorflow/go/graph.go:474-492 | The stored attribute is the list that was set. |
| AttrLists.GetShapes | tensorflow-master/tensorflow/go/attrs.go:152-177 | With storage sized by the metadata, reading never fails and gives the list. |
| AttrLists.GetStrings | tensorflow-master/tensorflow/go/attrs.go:57-75 | The same for strings. |
| AttrLists.SetThenGetShapes | tensorflow-master/tensorflow/go/attrs.go:38-52 | Setting a list of shapes and reading it back is the identity, unknown rank kept apart from scalars. |
| GoSession.CallsAreSafe | tensorflow-master/tensorflow/go/session.go:134-159 | No guarded call is made on a nil or deleted session, and none is in progress while the session is being closed or deleted. |
| GoSession.RunMakesItsCall | tensorflow-master/tensorflow/go/session.go:134-159 | In any run, Run makes its C call on the session as it was created, unless the session has been closed by the time it returns; on a closed session it makes none. |
| GoSession.ClosesAreSafe | tensorflow-master/tensorflow/go/session.go:272-287 | Close hands only a live session to the C API. |
| GoSession.CloseCloses | tensorflow-master/tensorflow/go/session.go:272-287 | In any run, when Close returns without having called TF_CloseSession the session had been closed before. |
| GoSession.CloseReturns | tensorflow-master/tensorflow/go/session.go:272-287 | If TF_CloseSession succeeds, the session has been deleted once and is closed for good when Close returns; if it fails, the session is still open and not deleted. |
| GoSession.DeletedAtMostOnce | tensorflow-master/tensorflow/go/session.go:272-287 | The C session is deleted at most once, however often Close is called. |
| GoSession.NeverDeadlocked | tensorflow-master/tensorflow/go/session.go:272-287 | Close waits for calls, calls wait for no Close once they are counted: some thread can always move. |
| GoSession.CountAfter | tensorflow-master/tensorflow/go/session.go:140-142 | The wait group counts exactly the threads inside guarded calls. |
| FeedSort.Feeds.Less | tensorflow-master/tensorflow/go/session.go:368-381 | Orders by name address, then by index. |
| FeedSort.Feeds.Swap | tensorflow-master/tensorflow/go/session.go:383-386 | Swaps the same two positions of both arrays. |
| FeedSort.Feeds.Sort | tensorflow-master/tensorflow/go/session.go:408-411 | Sorts both arrays together: a permutation of the pairs, strictly increasing by name address and then by index if the outputs are distinct. |
| FeedSort.SortedFeedsAreUnique | tensorflow-master/tensorflow/go/session.go:397-411 | There is one sorted order of a set of feeds. |
| FeedSort.FeedsOfTwoRuns | tensorflow-master/tensorflow/go/session.go:392-411 | Two iteration orders of the same feeds give identical arrays, in that order, every tensor next to its own output. |

## Left out

- `ReleaseNonPersistentMemory`, `AcquireNonPersistentMemory`, debug dumps and allocation statistics of the planner: plumbing around the modelled state.
- The allocation and alignment of the arena's block itself: whether memory is granted, and where, are parameters of `Commit`.
- The machine widths of sizes are modelled where the arena checks for overflow; counters of nodes and tensors are unbounded integers below the planner's marker for unassigned nodes.
- MemorySemantics.MemoryPlanningPreservesMeaning: operators are atomic (they read all inputs, then write), so overlap inside one operator between a shared input and its output is trusted to the operator, as the in-place flags declare it.
- LayoutExactness.PreservedExactlyWhenSafe: says nothing of layouts in which a pass-through node copies a value from elsewhere into a shared buffer; by `PlannedExactness.PlannedLayoutIsCoherent` the planner makes none, unless an operator moves the original of a shared copy out of the arena or gives the two different sizes.
- `ImportGraphDef`, `LoadSavedModel`, shape inference, `Session::Extend` and `Session::Run` succeed or fail by choice; what they do inside is not modelled. `TF_AddGradients` and while loops are left out.
- `TF_RemoveAllControlInputs`, which changes a node and records nothing, is no step of the session machine: a session is never warned of it.
- `SessionProtocol` merges steps between which no other thread can get in; the time for which `extend_before_run` is false, with the client calling the extension itself, is the same machine.
- A session without a graph (`TF_NewSession` with a null graph) takes no part in the protocol.
- NameIndex.Graph.ImportGraphDef: the importer is assumed to make new, distinct names, as it does with its default options on a graph without clashes.
- `TF_AssignRefVariable`, `TF_AssignUpdate` on temporary variables and the tensor array helpers of the kernel API.
- CopyOnWrite.VariableStore.AssignUpdateVariable: a missing variable aborts the process in the code; here the operation is refused.
- Data races on a variable between threads that hold its mutex shared are not modelled; operations on variables are atomic.
- VariableLocking.SortByAddress: `std::sort` is modelled as an insertion sort; the order of distinct addresses is unique, so the algorithm does not matter.
- FeedSort.Feeds.Sort: `sort.Sort` is modelled as the insertion sort it uses for short lists; by uniqueness the result does not depend on it for distinct outputs.
- Pointers, cgo, finalizers and addressability beyond the one check in `encodeTensorWithSlices`; memory is a sequence of symbolic bytes, one representation per element, which includes `TF_TString`. `ReadTensor`, `WriteContentsTo` and `Reshape` are left out.
- Machine overflow of `numElements` and of storage sizes in the attribute readers.
- The other attribute types, whose readers copy element by element, and empty attribute lists' types, which come from the operation's definition.
- GoSession.CallsAreSafe: `ListDevices` is not guarded in the code and not covered.
- Go's rule that a wait group is not reused while waiters remain holds because counting happens under the mutex that Close keeps while it waits; it is visible in the model but not stated separately.
