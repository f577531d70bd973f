/**
  In-place safety is not only enough for planning to preserve meaning, it is exactly
  what is needed: whenever it fails, some operators make a node read a wrong value.
  And it can fail, because sharing looks at the references of the shared input and of
  the buffer's owner, not at those of the aliases between them.
 */
module PlanningExactness {
  import opened TfLiteGraph
  import opened InPlaceSharing
  import opened Lifetimes
  import opened MemorySemantics
  import opened LayoutExactness

  // No alias of the plan was given up, and all of them live in the arena.
  ghost predicate Undropped(l: Layout)
    requires l.plan.Valid()
  {
    && l.aliases == Aliases(l.plan)
    && (forall x | x in l.aliases :: l.InArena(x) && l.InArena(l.aliases[x]))
    && l.plan.tensors <= l.tensors
  }

  // Tensors of a shared buffer all sit at the owner's offset.
  lemma SharedBufferInArena(l: Layout, i: nat, x: int)
    requires ReadyToRun(l) && Undropped(l) && SharesAt(l.plan, Aliases(l.plan), i)
    requires FindSharedTensor(Aliases(l.plan), x) == FindSharedTensor(Aliases(l.plan), SharedInput(l.plan, i))
    ensures l.InArena(x) && l.Owner(x) == FindSharedTensor(Aliases(l.plan), x)
    ensures Sourced(l.plan.graph, FindSharedTensor(Aliases(l.plan), x))
    ensures l.Bytes(x) == l.Bytes(SharedInput(l.plan, i))
  {
    var m, o := Aliases(l.plan), l.plan.graph.nodes[i].outputs[0];
    AliasMapIsSound(l.plan);
    var k :| MadeBy(l.plan, m, o, k);
    CandidateIsShareable(l.plan, i);
    assert k == i;
    assert l.aliases[o] == FindSharedTensor(m, x);
    var reader := OwnerIsRead(l.plan, m, o);
  }

  lemma UndroppedIsCoherent(l: Layout)
    requires ReadyToRun(l) && Undropped(l)
    ensures Coherent(l)
  {
    var m := Aliases(l.plan);
    AliasMapIsSound(l.plan);
    forall i | PassesThroughAt(l.plan, m, i)
      ensures var o, input := l.plan.graph.nodes[i].outputs[0], SharedInput(l.plan, i);
        l.Bytes(o) == l.Bytes(input) && l.InArena(input) && l.Owner(input) == l.Owner(o)
    {
      CandidateIsShareable(l.plan, i);
      var k :| MadeBy(l.plan, m, l.plan.graph.nodes[i].outputs[0], k);
      assert k == i;
      SharedBufferInArena(l, i, l.plan.graph.nodes[i].outputs[0]);
      SharedBufferInArena(l, i, SharedInput(l.plan, i));
    }
  }

  // With every alias in force, overwriting a buffer of the plan is overwriting memory.
  lemma OverwrittenInArena(l: Layout, i: int, x: int)
    requires ReadyToRun(l) && Undropped(l) && OverwritesAt(l.plan, Aliases(l.plan), i)
    requires Available(l.plan.graph, x, i) && x != OPTIONAL_TENSOR
    requires FindSharedTensor(Aliases(l.plan), x) == FindSharedTensor(Aliases(l.plan), SharedInput(l.plan, i))
    ensures Overwrites(l, i, x)
  {
    var o := l.plan.graph.nodes[i].outputs[0];
    AliasMapIsSound(l.plan);
    CandidateIsShareable(l.plan, i);
    var k :| MadeBy(l.plan, Aliases(l.plan), o, k);
    assert k == i;
    SharedBufferInArena(l, i, x);
    SharedBufferInArena(l, i, o);
  }

  // A wanted value that gets overwritten is read wrong; if a graph output depends on it,
  // an output is wrong.
  lemma HazardIsObservable(l: Layout, i: nat, x: int)
    requires ReadyToRun(l) && Undropped(l) && OverwritesAt(l.plan, Aliases(l.plan), i)
    requires Available(l.plan.graph, x, i) && x != OPTIONAL_TENSOR
    requires FindSharedTensor(Aliases(l.plan), x) == FindSharedTensor(Aliases(l.plan), SharedInput(l.plan, i))
    requires ReadFrom(l.plan.graph, x, i + 1)
    ensures exists start, kernel, scratch :: PassesThrough(l, kernel) && !PreservesMeaning(l, start, kernel, scratch)
    ensures Needed(l, OutputsOnly, x, i + 1) ==>
              exists start, kernel, scratch :: PassesThrough(l, kernel) && !OutputsRight(l, start, kernel, scratch)
  {
    hide CarriesOut, ValidPlacement, TemporariesDisjoint, NothingStranded, WellFormed, InRange, Coherent;
    hide PassesThrough, OutputsRight, ReadsRight, Aliases;
    UndroppedIsCoherent(l);
    OverwrittenInArena(l, i, x);
    HazardShows(l, EveryRead, i, x);
    var start, kernel, scratch :| PassesThrough(l, kernel) && !Preserves(l, EveryRead, start, kernel, scratch);
    assert !PreservesMeaning(l, start, kernel, scratch);
    if Needed(l, OutputsOnly, x, i + 1) {
      HazardShows(l, OutputsOnly, i, x);
    }
  }

  // With every planned alias in force, all runs are right exactly when no node
  // overwrites a buffer that holds a wanted value.
  lemma PreservesMeaningExactlyWhenInPlaceSafe(l: Layout)
    requires ReadyToRun(l) && Undropped(l)
    ensures InPlaceSafe(l.plan, Aliases(l.plan)) <==>
            forall start, kernel, scratch | PassesThrough(l, kernel) :: PreservesMeaning(l, start, kernel, scratch)
  {
    var m := Aliases(l.plan);
    if InPlaceSafe(l.plan, m) {
      forall start, kernel, scratch | PassesThrough(l, kernel)
        ensures PreservesMeaning(l, start, kernel, scratch)
      {
        MemoryPlanningPreservesMeaning(l, start, kernel, scratch);
      }
    } else {
      var i, x :| OverwritesAt(l.plan, m, i) && Available(l.plan.graph, x, i) && x != OPTIONAL_TENSOR
                  && FindSharedTensor(m, x) == FindSharedTensor(m, SharedInput(l.plan, i))
                  && !(!ReadFrom(l.plan.graph, x, i + 1) && x !in l.plan.graph.outputs);
      AliasMapIsSound(l.plan);
      OverwrittenIsNoOutput(l.plan, m, i, x);
      HazardIsObservable(l, i, x);
    }
  }

  // ---- The hole in the sharing rule
  // Tensor 1 is passed through to 2 and on to 3; node 3 then overwrites 3 in place while
  // node 4 still has to read 2.

  const COMPUTE := INPLACE_NONE
  const RESHAPE := InplaceOp(true, false, true, false, false)
  const ADD_IN_PLACE := InplaceOp(false, false, true, false, false)
  const BUFFER := Tensor(8, ArenaRw)
  const FAN_OUT_GRAPH := Graph([Node([0], [1], [], COMPUTE),
                                Node([1], [2], [], RESHAPE),
                                Node([2], [3], [], RESHAPE),
                                Node([3], [4], [], ADD_IN_PLACE),
                                Node([2, 4], [5], [], COMPUTE)], [0], [5], [])
  const FAN_OUT := Plan(FAN_OUT_GRAPH, [BUFFER, BUFFER, BUFFER, BUFFER, BUFFER, BUFFER], false)

  // Tensors 1 to 4 share a buffer.
  const FAN_OUT_LAYOUT := Layout(FAN_OUT, FAN_OUT.tensors, map[2 := 1, 3 := 1, 4 := 1],
                                 [0, 0, 1, 2, 3, 4],
                                 [NOT_ASSIGNED, 4, NOT_ASSIGNED, NOT_ASSIGNED, NOT_ASSIGNED, NOT_ASSIGNED],
                                 (x: int) => if x == 0 then 0 else if x == 5 then 16 else 8)

  lemma FanOutReads()
    ensures forall i, x :: Reads(FAN_OUT_GRAPH, i, x) <==> (i, x) in {(0, 0), (1, 1), (2, 2), (3, 3), (4, 2), (4, 4)}
    ensures forall i, x :: Writes(FAN_OUT_GRAPH, i, x) <==> 0 <= i < 5 && x == i + 1
    ensures forall i, x :: !UsesTemporary(FAN_OUT_GRAPH, i, x)
  {
  }

  lemma CountOne(a: int, x: int)
    ensures Count([a], x) == if a == x then 1 else 0
  {
    assert CountTo([a], 1, x) == CountTo([a], 0, x) + if a == x then 1 else 0;
  }

  lemma CountTwo(a: int, b: int, x: int)
    ensures Count([a, b], x) == (if a == x then 1 else 0) + if b == x then 1 else 0
  {
    assert CountTo([a, b], 1, x) == CountTo([a, b], 0, x) + if a == x then 1 else 0;
    assert CountTo([a, b], 2, x) == CountTo([a, b], 1, x) + if b == x then 1 else 0;
  }

  // Tensors 1 and 3 are read once.
  lemma FanOutRefCount(x: int)
    requires x == 1 || x == 3
    ensures RefCount(FAN_OUT_GRAPH, x) == 1
  {
    hide Count;
    var g := FAN_OUT_GRAPH;
    CountOne(0, x);
    CountOne(1, x);
    CountOne(2, x);
    CountOne(3, x);
    CountTwo(2, 4, x);
    CountOne(5, x);
    CountNone(x);
    assert ReadCount(g, 1, x) == 0;
    assert ReadCount(g, 2, x) == if x == 1 then 1 else 0;
    assert ReadCount(g, 3, x) == if x == 1 then 1 else 0;
    assert ReadCount(g, 4, x) == 1;
    assert ReadCount(g, 5, x) == 1;
  }

  lemma CountNone(x: int)
    ensures Count([], x) == 0
  {
  }

  lemma FanOutNodeInRange(i: nat)
    requires i < 5
    ensures NodeInRange(FAN_OUT_GRAPH.nodes[i], 6)
  {
  }

  lemma FanOutValid()
    ensures FAN_OUT.Valid()
  {
    hide NodeInRange;
    forall i | 0 <= i < 5
      ensures NodeInRange(FAN_OUT_GRAPH.nodes[i], 6)
    {
      FanOutNodeInRange(i);
    }
  }

  lemma FanOutSlot(i: nat)
    requires i < 5
    ensures FAN_OUT.Valid()
    ensures CandidateSlot(FAN_OUT, i) == if 1 <= i <= 3 then 0 else -1
  {
    hide RefCount, InRange;
    FanOutValid();
    FanOutRefCount(1);
    FanOutRefCount(3);
  }

  lemma FanOutWellFormed()
    ensures WellFormed(FAN_OUT_GRAPH)
  {
    FanOutReads();
  }

  lemma FanOutAliases()
    ensures FAN_OUT.Valid() && WellFormed(FAN_OUT_GRAPH)
    ensures Aliases(FAN_OUT) == map[2 := 1, 3 := 1, 4 := 1]
    ensures OverwritesAt(FAN_OUT, Aliases(FAN_OUT), 3) && SharedInput(FAN_OUT, 3) == 3
  {
    hide CandidateSlot, RefCount, WellFormed, InRange, AliasesUpTo;
    FanOutWellFormed();
    FanOutAliasMap(5);
    FanOutSlot(3);
  }

  lemma {:induction false} FanOutAliasMap(i: nat)
    requires i <= 5
    ensures FAN_OUT.Valid()
    ensures AliasesUpTo(FAN_OUT, i) == if i <= 1 then map[] else if i == 2 then map[2 := 1]
                                       else if i == 3 then map[2 := 1, 3 := 1] else map[2 := 1, 3 := 1, 4 := 1]
  {
    hide CandidateSlot, RefCount, WellFormed, InRange;
    FanOutValid();
    if i > 0 {
      FanOutAliasMap(i - 1);
      FanOutSlot(i - 1);
      FanOutRefCount(1);
    }
  }

  lemma FanOutAllocated(x: int)
    requires 0 <= x < 6
    ensures AllocatedAt(FAN_OUT_GRAPH, FAN_OUT_LAYOUT.allocNode[x], x, 5)
  {
    FanOutReads();
    assert x > 0 ==> Writes(FAN_OUT_GRAPH, x - 1, x);
  }

  lemma FanOutReleased(x: int)
    requires 0 <= x < 6
    ensures FAN_OUT.Valid() && ReleasedAt(FAN_OUT_GRAPH, Aliases(FAN_OUT), FAN_OUT_LAYOUT.deallocNode[x], x)
  {
    hide AliasesUpTo, InRange, CandidateSlot, SharesAt;
    FanOutReads();
    FanOutAliases();
    var g, m := FAN_OUT_GRAPH, Aliases(FAN_OUT);
    if x == 1 {
      assert Reads(g, 4, 4) && ReadsBuffer(g, m, 4, 1) && Writes(g, 0, 1);
    } else {
      assert x == 0 || x == 5 ==> Pinned(g, x);
      assert forall y :: FindSharedTensor(m, y) == x ==> x == 0 || x == 5;
    }
  }

  lemma FanOutIsCarriedOut()
    ensures FAN_OUT.Valid() && CarriesOut(FAN_OUT_LAYOUT)
  {
    hide AliasesUpTo, CandidateSlot, SharesAt, AllocatedAt, ReleasedAt, InRange, WellFormed, Sourced, Reads;
    FanOutReads();
    FanOutAliases();
    var l, g := FAN_OUT_LAYOUT, FAN_OUT_GRAPH;
    forall x | 0 <= x < 6
      ensures AllocatedAt(g, l.allocNode[x], x, 5) && ReleasedAt(g, Aliases(FAN_OUT), l.deallocNode[x], x)
    {
      FanOutAllocated(x);
      FanOutReleased(x);
    }
    FanOutSources();
  }

  lemma FanOutSources()
    ensures forall i, x | Reads(FAN_OUT_GRAPH, i, x) :: Sourced(FAN_OUT_GRAPH, x)
  {
    FanOutReads();
    assert forall i, x | Reads(FAN_OUT_GRAPH, i, x) && x > 0 :: Writes(FAN_OUT_GRAPH, x - 1, x);
  }

  lemma FanOutPlacement()
    ensures ValidPlacement(FAN_OUT_LAYOUT)
  {
    var l := FAN_OUT_LAYOUT;
    assert forall x :: l.InArena(x) && l.Owner(x) == x ==> x == 0 || x == 1 || x == 5;
  }

  // Tensor 5 holds another value than with private buffers.
  ghost predicate FanOutGoesWrong(start: Memory, kernel: Kernel, scratch: Kernel) {
    var l := FAN_OUT_LAYOUT;
    Read(l, ArenaRun(l, start, kernel, scratch, 5), 5) != PrivateRun(l, StartEnv(l, start), kernel, 5)(5)
  }

  lemma FanOutIsReady()
    ensures ReadyToRun(FAN_OUT_LAYOUT) && Undropped(FAN_OUT_LAYOUT)
  {
    hide AliasesUpTo, CandidateSlot, CarriesOut, ValidPlacement, WellFormed, InRange;
    FanOutReads();
    FanOutAliases();
    FanOutIsCarriedOut();
    FanOutPlacement();
  }

  // The graph output depends on tensor 2 after node 3 has run.
  lemma FanOutNeeds()
    ensures FAN_OUT.Valid() && Needed(FAN_OUT_LAYOUT, OutputsOnly, 2, 4)
    ensures ReadFrom(FAN_OUT_GRAPH, 2, 4) && Available(FAN_OUT_GRAPH, 2, 3)
    ensures FindSharedTensor(Aliases(FAN_OUT), 2) == FindSharedTensor(Aliases(FAN_OUT), 3)
  {
    hide AliasesUpTo, CandidateSlot, InRange, WellFormed;
    FanOutReads();
    FanOutAliases();
    assert Reads(FAN_OUT_GRAPH, 4, 2);
    FanOutSlot(4);
    assert Uses(FAN_OUT_LAYOUT, 4, 2, 5) && Needed(FAN_OUT_LAYOUT, OutputsOnly, 5, 5);
  }

  // The planner accepts this sharing, yet some operators make node 4 read a wrong value
  // and the graph output come out wrong.
  lemma FanOutOfAliasIsUnsafe()
    ensures ReadyToRun(FAN_OUT_LAYOUT)
    ensures exists start, kernel, scratch ::
              PassesThrough(FAN_OUT_LAYOUT, kernel) && !PreservesMeaning(FAN_OUT_LAYOUT, start, kernel, scratch)
    ensures exists start, kernel, scratch ::
              PassesThrough(FAN_OUT_LAYOUT, kernel) && FanOutGoesWrong(start, kernel, scratch)
  {
    hide AliasesUpTo, CandidateSlot, CarriesOut, ValidPlacement, WellFormed, PassesThrough, Read, ArenaRun, PrivateRun;
    hide InRange, Count, RefCount, StartEnv, ReadyToRun, Undropped, Aliases, Needed, Available, ReadFrom;
    var l := FAN_OUT_LAYOUT;
    FanOutIsReady();
    FanOutAliases();
    FanOutNeeds();
    HazardIsObservable(l, 3, 2);
    var start, kernel, scratch :| PassesThrough(l, kernel) && !OutputsRight(l, start, kernel, scratch);
    assert FanOutGoesWrong(start, kernel, scratch);
  }
}
