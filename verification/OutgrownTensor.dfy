/**
  Re-execution at its smallest: between two executions a persistent scratch tensor grows,
  keeps the buffer it has, and its node gets a buffer that is too small.
 */
module OutgrownTensor {
  import opened TfLiteGraph
  import opened InPlaceSharing
  import opened Lifetimes
  import opened SimpleMemoryArena
  import opened AllocationOrder
  import opened Placement
  import opened ArenaPlanner
  import opened MemorySemantics
  import opened PlanningExactness
  import opened PlannedMemory

  // Tensor 1 has a dynamic size, and tensor 3 is the scratch memory of the node that reads it.
  const SCRATCH := Graph([Node([0], [1], [], COMPUTE), Node([1], [2], [3], COMPUTE)], [0], [2], [])
  const DYNAMIC := Tensor(8, Dynamic)
  const SMALL := [BUFFER, DYNAMIC, BUFFER, Tensor(8, ArenaRwPersistent)]
  const GROWN := [BUFFER, DYNAMIC, BUFFER, Tensor(16, ArenaRwPersistent)]
  const SCRATCH_PLAN := Plan(SCRATCH, SMALL, false)

  lemma ScratchReads()
    ensures forall i, x :: Reads(SCRATCH, i, x) <==> 0 <= i < 2 && x == i
    ensures forall i, x :: Writes(SCRATCH, i, x) <==> 0 <= i < 2 && x == i + 1
    ensures forall i, x :: UsesTemporary(SCRATCH, i, x) <==> i == 1 && x == 3
  {
  }

  // The graph is as it should be, and the second table differs in tensor 3 alone.
  lemma ScratchMayGrow()
    ensures SCRATCH_PLAN.Valid() && WellFormed(SCRATCH) && TemporariesDisjoint(SCRATCH, 4)
    ensures Settles(SCRATCH, SMALL, GROWN, 0) && ReadsHaveSources(SCRATCH, GROWN)
    ensures Aliases(SCRATCH_PLAN) == map[]
  {
    ScratchReads();
    assert UsesTemporary(SCRATCH, 1, 3) && StartsAfter(SCRATCH, 3, 0);
    assert CandidateSlot(SCRATCH_PLAN, 0) == -1 && CandidateSlot(SCRATCH_PLAN, 1) == -1;
    assert AliasesUpTo(SCRATCH_PLAN, 1) == map[];
    assert forall x :: x > 0 ==> (Reads(SCRATCH, x, x) ==> Writes(SCRATCH, x - 1, x));
  }

  // The contracts of the planner, put together for this graph: execution and re-execution
  // fail only if memory is refused, and leave node 1 with 8 bytes for a tensor of 16.
  method ScratchTooSmall(grant: Grant) returns (status: Status, p: ArenaPlanner)
    ensures grant.granted && grant.persistentGranted ==> status.Ok?
    ensures status.Ok? ==> FullyExecuted(p) && p.graph == SCRATCH && p.tensors == GROWN && UsesTemporary(p.graph, 1, 3)
    ensures status.Ok? ==> p.tensors[3].bytes == 16 && p.allocs[3].size == 8
                           && p.data[3] == InPersistentArena(p.persistentArena.base + p.allocs[3].offset)
  {
    hide FullyExecuted, AllSized, AllFit, WellFormed, TemporariesDisjoint, Settles, AliasesUpTo;
    ScratchReads();
    ScratchMayGrow();
    p := new ArenaPlanner(SCRATCH, SMALL, false, DEFAULT_ARENA_ALIGNMENT);
    status := ExecuteSmall(p, grant);
    if status.Ok? {
      status := ExecuteGrown(p, grant);
    }
  }

  method ExecuteSmall(p: ArenaPlanner, grant: Grant) returns (status: Status)
    requires p.Valid() && p.CurrentPlan() == SCRATCH_PLAN && AlignedBy64(p)
    modifies p, p.arena, p.persistentArena
    ensures p.thePlan == SCRATCH_PLAN && p.graph == SCRATCH && p.tensors == SMALL
    ensures grant.granted && grant.persistentGranted ==> status.Ok? && p.RoomFor(Room(4 * (64 + 8), 16, 4))
    ensures status.Ok? ==> FullyExecuted(p) && AllSized(p)
  {
    hide WellFormed, TemporariesDisjoint, LargestTensor, FullyExecuted, AllSized, AllFit, LayoutOf, SharesAllItCan;
    ScratchReads();
    ScratchMayGrow();
    LargestOf(SMALL, 8);
    status := PlanAndExecute(p, SMALL, grant);
    if grant.granted && grant.persistentGranted {
      RoomGrows(p, RoomOf(SMALL).Filled(64), Room(4 * (64 + 8), 16, 4));
    }
  }

  predicate AlignedBy64(p: ArenaPlanner) {
    p.tensorAlignment == p.arena.bufferAlignment == p.persistentArena.bufferAlignment == 64
  }

  method ExecuteGrown(p: ArenaPlanner, grant: Grant) returns (status: Status)
    requires FullyExecuted(p) && AllSized(p) && p.thePlan == SCRATCH_PLAN && p.graph == SCRATCH && p.tensors == SMALL
    modifies p`allocs, p`allocNode, p`deallocNode, p`nodesToTensors, p`actualTensorId,
             p`persistentRecords, p`lastActiveNode, p`tensors, p`data, p.arena, p.persistentArena
    ensures grant.granted && grant.persistentGranted && old(p.RoomFor(Room(4 * (64 + 8), 16, 4))) ==> status.Ok?
    ensures status.Ok? ==> FullyExecuted(p) && p.tensors == GROWN
    ensures status.Ok? ==> p.allocs[3].size == 8
                           && p.data[3] == InPersistentArena(p.persistentArena.base + p.allocs[3].offset)
  {
    hide WellFormed, TemporariesDisjoint, Settles, LayoutOf, Tables.Housed, PlanKept, Spread, PersistentSpread;
    hide QueuedAtFirstUse, RecordsQueued, ArenaTensorsOnly, Flat, Tidy;
    ScratchReads();
    ScratchMayGrow();
    ScratchIsHoused(p);
    status := ExecuteAgain(p, 0, 1, GROWN, grant, 1, Room(4 * (64 + 8), 16, 4));
    if status.Ok? {
      ScratchIsUsed(p);
      MemoryUnlessStranded(p, 3);
    }
  }

  lemma LargestOf(tensors: seq<Tensor>, bytes: nat)
    requires forall t | t in tensors :: t.bytes <= bytes
    ensures LargestTensor(tensors) <= bytes
  {
  }

  lemma ScratchIsUsed(p: ArenaPlanner)
    requires FullyExecuted(p) && p.graph == SCRATCH && |p.tensors| == 4 && NeedsRoom(p.tensors[3])
    ensures Used(p, 3) && 3 in p.nodesToTensors[1]
  {
    ScratchReads();
    assert UsesTemporary(p.graph, 1, 3);
  }

  lemma ScratchIsHoused(p: ArenaPlanner)
    requires FullyExecuted(p) && p.graph == SCRATCH && p.tensors == SMALL && AllSized(p)
    requires p.thePlan == SCRATCH_PLAN
    ensures p.allocs[3].size == 8 && 3 in p.persistentRecords
  {
    ScratchIsUsed(p);
    ScratchMayGrow();
    assert TablesOf(p).Housed(3, 1);
  }

  // More room is room enough.
  lemma RoomGrows(p: ArenaPlanner, room: Room, larger: Room)
    requires p.RoomFor(room) && larger.Suffices(p.tensorAlignment)
    requires room.highest <= larger.highest && room.largest <= larger.largest
    ensures p.RoomFor(larger)
  {
  }
}
