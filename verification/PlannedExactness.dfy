/**
  The exact conditions of LayoutExactness, for the memory that the planner computes.
 */
module PlannedExactness {
  import opened TfLiteGraph
  import opened InPlaceSharing
  import opened Lifetimes
  import opened Placement
  import opened ArenaPlanner
  import opened MemorySemantics
  import opened LayoutExactness
  import opened PlannedMemory

  // What a pass-through operator has to see to when it settles its output.
  ghost predicate PassThroughSettled(p: ArenaPlanner)
    requires p.thePlan.Valid()
    reads p
  {
    forall i | PassesThroughAt(p.thePlan, Aliases(p.thePlan), i) ::
      var o, input := p.thePlan.graph.nodes[i].outputs[0], SharedInput(p.thePlan, i);
      && 0 <= o < |p.tensors| && 0 <= input < |p.tensors|
      && p.tensors[o].bytes == p.tensors[input].bytes
      && (p.tensors[o].allocationType == ArenaRw ==> p.tensors[input].allocationType == ArenaRw)
  }

  // The original of a copy that shares a buffer has kept its own place in it.
  lemma PassThroughIsCoherent(p: ArenaPlanner, i: int)
    requires FullyExecuted(p) && SharesAllItCan(p) && PassThroughSettled(p)
    requires PassesThroughAt(p.thePlan, Aliases(p.thePlan), i) && SharesIn(LayoutOf(p), i)
    ensures LayoutOf(p).InArena(SharedInput(p.thePlan, i))
    ensures LayoutOf(p).Owner(SharedInput(p.thePlan, i)) == LayoutOf(p).Owner(p.thePlan.graph.nodes[i].outputs[0])
  {
    hide InRange, AllocatedAt, ReleasedAt, AliasesUpTo, Spread, PersistentSpread, RecordsQueued;
    hide QueuedAtFirstUse, TemporariesDisjoint, Tables.Housed;
    var m, o, input := Aliases(p.thePlan), p.thePlan.graph.nodes[i].outputs[0], SharedInput(p.thePlan, i);
    AliasMapIsSound(p.thePlan);
    CandidateIsShareable(p.thePlan, i);
    var k :| MadeBy(p.thePlan, m, o, k);
    assert k == i;
    if input in m {
      assert KeepsSharing(p.tensors, m, input);
    }
  }

  lemma PlannedLayoutIsCoherent(p: ArenaPlanner)
    requires FullyExecuted(p) && SharesAllItCan(p) && PassThroughSettled(p)
    ensures Coherent(LayoutOf(p))
  {
    hide SharesAllItCan, SharesIn, InRange, WellFormed, Spread, PersistentSpread, RecordsQueued, TemporariesDisjoint;
    forall i | PassesThroughAt(p.thePlan, Aliases(p.thePlan), i) && SharesIn(LayoutOf(p), i)
      ensures LayoutOf(p).InArena(SharedInput(p.thePlan, i))
      ensures LayoutOf(p).Owner(SharedInput(p.thePlan, i)) == LayoutOf(p).Owner(p.thePlan.graph.nodes[i].outputs[0])
    {
      PassThroughIsCoherent(p, i);
    }
  }

  // Running in the planner's memory is right for every observer and all operators exactly
  // if no node overwrites a value that matters to the observer.
  lemma PlannedGraphIsExact(p: ArenaPlanner, who: Observer)
    requires FullyExecuted(p) && ReadsHaveSources(p.graph, p.tensors) && AllFit(p)
    requires forall x :: !Stranded(p.tensors, p.actualTensorId, x)
    requires SharesAllItCan(p) && PassThroughSettled(p)
    ensures Safe(LayoutOf(p), who) <==>
            forall start, kernel, scratch | PassesThrough(LayoutOf(p), kernel) ::
              Preserves(LayoutOf(p), who, start, kernel, scratch)
  {
    PlannedMemoryIsReadyToRun(p);
    PlannedLayoutIsCoherent(p);
    PreservedExactlyWhenSafe(LayoutOf(p), who);
  }
}
