/**
  Sharing between the arenas at its smallest: a persistent tensor takes over the buffer
  of an arena tensor, gets no memory, and the node that reads it gets a null pointer.
 */
module StrandedTensor {
  import opened TfLiteGraph
  import opened InPlaceSharing
  import opened Lifetimes
  import opened SimpleMemoryArena
  import opened AllocationOrder
  import opened Placement
  import opened ArenaPlanner
  import opened MemorySemantics
  import opened PlanningExactness
  import opened PlannedMemory

  const PERSISTENT_BUFFER := Tensor(8, ArenaRwPersistent)
  const CHAIN := Graph([Node([0], [1], [], COMPUTE), Node([1], [2], [], RESHAPE), Node([2], [3], [], COMPUTE)],
                       [0], [3], [])
  const CHAIN_PLAN := Plan(CHAIN, [BUFFER, BUFFER, PERSISTENT_BUFFER, BUFFER], false)

  lemma ChainReads()
    ensures forall i, x :: Reads(CHAIN, i, x) <==> 0 <= i < 3 && x == i
    ensures forall i, x :: Writes(CHAIN, i, x) <==> 0 <= i < 3 && x == i + 1
    ensures forall i, x :: !UsesTemporary(CHAIN, i, x)
  {
  }

  lemma ChainAliases()
    ensures CHAIN_PLAN.Valid() && WellFormed(CHAIN) && Aliases(CHAIN_PLAN) == map[2 := 1]
  {
    ChainReads();
    var p := CHAIN_PLAN;
    assert CandidateSlot(p, 0) == -1 && CandidateSlot(p, 1) == 0 && CandidateSlot(p, 2) == -1;
    hide CandidateSlot;
    assert AliasesUpTo(p, 1) == map[];
    assert AliasesUpTo(p, 2) == map[2 := 1];
    assert AliasesUpTo(p, 3) == map[2 := 1];
  }

  // The planner accepts it, and there is no late reader.
  lemma PersistentTensorIsStranded()
    ensures CHAIN_PLAN.Valid() && WellFormed(CHAIN)
    ensures NoLateReaders(CHAIN_PLAN, Aliases(CHAIN_PLAN)) && ReadsHaveSources(CHAIN, CHAIN_PLAN.tensors)
    ensures Stranded(CHAIN_PLAN.tensors, Aliases(CHAIN_PLAN), 2)
  {
    ChainReads();
    ChainAliases();
    hide AliasesUpTo, CandidateSlot, WellFormed;
    assert forall x :: x > 0 ==> (Reads(CHAIN, x, x) ==> Writes(CHAIN, x - 1, x));
  }

  // The contracts of the planner, put together for this graph: planning and execution fail
  // only if memory is refused, and leave tensor 2, which node 2 reads, with a null pointer.
  method ReadThroughNull(grant: Grant) returns (status: Status, p: ArenaPlanner)
    ensures p.graph == CHAIN && p.tensors == CHAIN_PLAN.tensors && Reads(p.graph, 2, 2)
    ensures grant.granted && grant.persistentGranted ==> status.Ok?
    ensures status.Ok? ==> |p.data| == 4 && p.data[2] == Null && p.tensors[2].bytes == 8
  {
    PersistentTensorIsStranded();
    ChainReads();
    p := new ArenaPlanner(CHAIN, CHAIN_PLAN.tensors, false, DEFAULT_ARENA_ALIGNMENT);
    status := PlanAndExecute(p, CHAIN_PLAN.tensors, grant);
    if status.Ok? {
      AliasIsUsed(p, 2);
      MemoryUnlessStranded(p, 2);
    }
  }
}
