/**
  The arena planner (class ArenaPlanner): it plans lifetimes and buffer sharing from
  the graph, then turns the plan into offsets in the arenas.
 */
module ArenaPlanner {
  import opened TfLiteGraph
  import opened InPlaceSharing
  import opened Lifetimes
  import opened SimpleMemoryArena
  import opened AllocationOrder
  import opened Placement

  const DEFAULT_ARENA_ALIGNMENT: nat := 64

  class ArenaPlanner {
    // The graph and the tensor table belong to the interpreter, which may change them
    // between calls.
    var graph: Graph
    var tensors: seq<Tensor>
    const preserveAllTensors: bool
    const tensorAlignment: nat
    const arena: Arena
    const persistentArena: Arena

    var allocs: seq<Alloc>
    var nodesToTensors: seq<set<int>>
    var allocNode: seq<int>
    var deallocNode: seq<int>
    var actualTensorId: AliasMap
    var refcounts: seq<nat>
    var lastActiveNode: int
    // The data pointers of the tensor table.
    var data: seq<Pointer>
    // What PlanAllocations last planned.
    ghost var thePlan: Plan
    // The tensors whose records are of the persistent arena, whatever their types are now.
    ghost var persistentRecords: set<int>

    constructor (g: Graph, ts: seq<Tensor>, preserveAll: bool, alignment: nat)
      ensures graph == g && tensors == ts && preserveAllTensors == preserveAll && tensorAlignment == alignment
      ensures fresh(arena) && fresh(persistentArena) && arena != persistentArena
      ensures arena.Valid() && persistentArena.Valid()
      ensures arena.bufferAlignment == persistentArena.bufferAlignment == DEFAULT_ARENA_ALIGNMENT
      ensures lastActiveNode == NOT_ASSIGNED
    {
      graph, tensors, preserveAllTensors, tensorAlignment := g, ts, preserveAll, alignment;
      allocs, nodesToTensors, allocNode, deallocNode, actualTensorId, refcounts := [], [], [], [], map[], [];
      lastActiveNode := NOT_ASSIGNED;
      data := seq(|ts|, _ => Null);
      thePlan, persistentRecords := Plan(g, ts, preserveAll), {};
      var a := new Arena(DEFAULT_ARENA_ALIGNMENT);
      var b := new Arena(DEFAULT_ARENA_ALIGNMENT);
      arena, persistentArena := a, b;
    }

    function CurrentPlan(): Plan
      reads this
    {
      Plan(graph, tensors, preserveAllTensors)
    }

    ghost predicate Valid()
      reads this, arena, persistentArena
    {
      && arena != persistentArena
      && arena.Valid() && persistentArena.Valid()
      && InRange(graph, |tensors|)
    }

    // ---- Planning

    method ResetAllocations()
      requires Valid()
      modifies this`allocs, this`lastActiveNode, this`persistentRecords, arena, persistentArena
      ensures Valid()
      ensures allocs == seq(|tensors|, _ => NO_ALLOC) && lastActiveNode == NOT_ASSIGNED && persistentRecords == {}
      ensures arena.activeAllocs == [] && arena.highWaterMark == 0 && arena.bufferSize == old(arena.bufferSize)
      ensures persistentArena.activeAllocs == [] && persistentArena.highWaterMark == 0
    {
      arena.ClearPlan();
      persistentArena.ClearPlan();
      allocs := seq(|tensors|, _ => NO_ALLOC);
      lastActiveNode, persistentRecords := NOT_ASSIGNED, {};
    }

    // Fills in actualTensorId from the reference counts.
    method IdentifyInPlaceTensors()
      requires InRange(graph, |tensors|) && |refcounts| == |tensors|
      requires forall x | 0 <= x < |tensors| :: refcounts[x] == RefCount(graph, x)
      modifies this`actualTensorId
      ensures actualTensorId == Aliases(CurrentPlan())
      // The first output of a node is an alias exactly if it may be, and nothing else is one.
      ensures WellFormed(graph) ==>
                && (forall i | 0 <= i < |graph.nodes| && graph.nodes[i].outputs != [] :: AliasDecided(i))
                && forall o | o in actualTensorId :: IsFirstOutput(o)
    {
      hide InputTensorCanBeShared, RefCount, WellFormed, AliasDecided;
      actualTensorId := map[];
      ghost var p := CurrentPlan();
      for i := 0 to |graph.nodes|
        invariant actualTensorId == AliasesUpTo(p, i)
      {
        var node := graph.nodes[i];
        if node.outputs == [] || node.inplace == INPLACE_NONE {
          continue;
        }
        var tensorChanged := !node.inplace.dataUnmodified;
        var inputId, outputId := -1, node.outputs[0];
        ghost var slot := CandidateSlot(p, i);
        var j := 0;
        while j < MAX_SHARABLE_OP_INPUTS && j < |node.inputs|
          invariant 0 <= j <= |node.inputs|
          invariant slot == ShareableInputFrom(p, i, j)
          invariant inputId == -1 && actualTensorId == AliasesUpTo(p, i)
        {
          if node.inputs[j] != OPTIONAL_TENSOR && node.inplace.InputShared(j) {
            var shared := CanShareInput(node.inputs[j], outputId, tensorChanged);
            if shared {
              inputId := node.inputs[j];
              break;
            }
          }
          j := j + 1;
        }
        if inputId == -1 {
          continue;
        }
        var actualOutputTensorId := FindSharedTensor(actualTensorId, inputId);
        RootInRange(p, i, inputId);
        if tensorChanged && refcounts[actualOutputTensorId] > 1 {
          continue;
        }
        actualTensorId := actualTensorId[outputId := actualOutputTensorId];
      }
      if WellFormed(graph) {
        AliasesAreDecided();
      }
    }

    // The first output of node i is an alias exactly if some input may share its buffer and, if
    // the node changes the data, the owner of that buffer has one reference. It is an alias of
    // the owner of the first such input.
    ghost predicate AliasDecided(i: int)
      requires InRange(graph, |tensors|) && 0 <= i < |graph.nodes| && graph.nodes[i].outputs != []
      reads this
    {
      var p, node := CurrentPlan(), graph.nodes[i];
      && (node.outputs[0] in actualTensorId <==>
            exists j :: IsFirstToShare(p, i, j)
                        && (node.inplace.dataUnmodified || RefCount(graph, OwnerOf(node.inputs[j])) <= 1))
      && (forall j | IsFirstToShare(p, i, j) && node.outputs[0] in actualTensorId ::
            actualTensorId[node.outputs[0]] == OwnerOf(node.inputs[j]))
    }

    ghost predicate IsFirstOutput(x: int)
      reads this`graph
    {
      exists i :: 0 <= i < |graph.nodes| && graph.nodes[i].outputs != [] && graph.nodes[i].outputs[0] == x
    }

    // The tensor in whose buffer x is kept.
    ghost function OwnerOf(x: int): int
      reads this`actualTensorId
    {
      if x in actualTensorId then actualTensorId[x] else x
    }

    lemma AliasesAreDecided()
      requires InRange(graph, |tensors|) && WellFormed(graph) && actualTensorId == Aliases(CurrentPlan())
      ensures forall i | 0 <= i < |graph.nodes| && graph.nodes[i].outputs != [] :: AliasDecided(i)
      ensures forall o | o in actualTensorId :: IsFirstOutput(o)
    {
      hide WellFormed, RefCount, InRange, Aliases, IsFirstToShare;
      forall i | 0 <= i < |graph.nodes| && graph.nodes[i].outputs != []
        ensures AliasDecided(i)
      {
        SharesExactlyWhenAllowed(CurrentPlan(), i);
      }
      AliasMapIsSound(CurrentPlan());
      forall o | o in actualTensorId
        ensures IsFirstOutput(o)
      {
        var k :| MadeBy(CurrentPlan(), Aliases(CurrentPlan()), o, k);
      }
    }

    // InputTensorCanBeShared, from the reference counts at hand.
    method CanShareInput(inputId: int, outputId: int, tensorChanged: bool) returns (shareable: bool)
      requires InRange(graph, |tensors|) && |refcounts| == |tensors|
      requires forall x | 0 <= x < |tensors| :: refcounts[x] == RefCount(graph, x)
      requires 0 <= inputId < |tensors| && 0 <= outputId < |tensors|
      ensures shareable <==> InputTensorCanBeShared(CurrentPlan(), inputId, outputId, tensorChanged)
    {
      var input, output := tensors[inputId], tensors[outputId];
      if tensorChanged {
        if input.bytes != output.bytes || input.bytes <= SCALAR_TENSOR_BYTES {
          return false;
        }
        if refcounts[inputId] > 1 {
          return false;
        }
      }
      for k := 0 to |graph.inputs|
        invariant inputId !in graph.inputs[..k]
      {
        assert graph.inputs[..k + 1] == graph.inputs[..k] + [graph.inputs[k]];
        if graph.inputs[k] == inputId {
          return false;
        }
      }
      assert graph.inputs[..|graph.inputs|] == graph.inputs;
      for k := 0 to |graph.outputs|
        invariant outputId !in graph.outputs[..k]
      {
        assert graph.outputs[..k + 1] == graph.outputs[..k] + [graph.outputs[k]];
        if graph.outputs[k] == outputId {
          return false;
        }
      }
      assert graph.outputs[..|graph.outputs|] == graph.outputs;
      if input.allocationType != output.allocationType && input.allocationType != ArenaRw {
        return false;
      }
      if preserveAllTensors {
        return false;
      }
      return true;
    }

    // Adds the references that a list of tensors holds.
    method AddReferences(s: seq<int>)
      requires |refcounts| == |tensors| && AllTensorsOrOptional(s, |tensors|)
      modifies this`refcounts
      ensures |refcounts| == |tensors|
      ensures forall x | 0 <= x < |tensors| :: refcounts[x] == old(refcounts[x]) + Count(s, x)
    {
      for j := 0 to |s|
        invariant |refcounts| == |tensors|
        invariant forall x | 0 <= x < |tensors| :: refcounts[x] == old(refcounts[x]) + CountTo(s, j, x)
      {
        if s[j] != OPTIONAL_TENSOR {
          refcounts := refcounts[s[j] := refcounts[s[j]] + 1];
        }
      }
    }

    method CountNodeInputs()
      requires InRange(graph, |tensors|) && |refcounts| == |tensors|
      requires forall x | 0 <= x < |tensors| :: refcounts[x] == PinCount(graph, x)
      modifies this`refcounts
      ensures |refcounts| == |tensors|
      ensures forall x | 0 <= x < |tensors| :: refcounts[x] == RefCount(graph, x)
    {
      for i := 0 to |graph.nodes|
        invariant |refcounts| == |tensors|
        invariant forall x | 0 <= x < |tensors| :: refcounts[x] == PinCount(graph, x) + ReadCount(graph, i, x)
      {
        AddReferences(graph.nodes[i].inputs);
      }
    }

    // The `allocate` and `deallocate` lambdas of PlanAllocations.
    method PlanAllocate(node: int, x: int) returns (status: Status)
      requires |allocNode| == |deallocNode| == |tensors| && 0 <= x < |tensors|
      modifies this`allocNode
      ensures status.Ok? <==> old(allocNode[x]) != NOT_ASSIGNED || deallocNode[x] == NOT_ASSIGNED
      ensures allocNode == if status.Ok? && old(allocNode[x]) == NOT_ASSIGNED
                           then old(allocNode)[x := node] else old(allocNode)
    {
      if allocNode[x] != NOT_ASSIGNED {
        return Ok;
      }
      if deallocNode[x] != NOT_ASSIGNED {
        return Error;
      }
      allocNode := allocNode[x := node];
      status := Ok;
    }

    method PlanDeallocate(node: int, x: int) returns (status: Status)
      requires |allocNode| == |deallocNode| == |tensors| && 0 <= x < |tensors|
      modifies this`deallocNode
      ensures status.Ok? <==> allocNode[x] == NOT_ASSIGNED || old(deallocNode[x]) == NOT_ASSIGNED
      ensures deallocNode == if status.Ok? && allocNode[x] != NOT_ASSIGNED
                             then old(deallocNode)[x := node] else old(deallocNode)
    {
      if allocNode[x] == NOT_ASSIGNED {
        return Ok;
      }
      if deallocNode[x] != NOT_ASSIGNED {
        return Error;
      }
      deallocNode := deallocNode[x := node];
      status := Ok;
    }

    // Variables and graph inputs: referenced for ever and needed from the start.
    method PinFromStart(s: seq<int>) returns (status: Status)
      requires |refcounts| == |allocNode| == |deallocNode| == |tensors| && |nodesToTensors| > 0
      requires AllTensorsOrOptional(s, |tensors|)
      requires forall x | 0 <= x < |tensors| :: deallocNode[x] == NOT_ASSIGNED
      modifies this`refcounts, this`allocNode, this`nodesToTensors
      ensures status.Ok?
      ensures |refcounts| == |allocNode| == |tensors| && |nodesToTensors| == |old(nodesToTensors)|
      ensures forall x | 0 <= x < |tensors| :: refcounts[x] == old(refcounts[x]) + Count(s, x)
      ensures forall x | 0 <= x < |tensors| ::
                allocNode[x] == if x in s && old(allocNode[x]) == NOT_ASSIGNED then 0 else old(allocNode[x])
      ensures forall x :: x in nodesToTensors[0] <==> x in old(nodesToTensors[0]) || (x in s && x != OPTIONAL_TENSOR)
      ensures nodesToTensors[1..] == old(nodesToTensors[1..])
    {
      for j := 0 to |s|
        invariant |refcounts| == |allocNode| == |tensors| && |nodesToTensors| == |old(nodesToTensors)|
        invariant forall x | 0 <= x < |tensors| :: refcounts[x] == old(refcounts[x]) + CountTo(s, j, x)
        invariant forall x | 0 <= x < |tensors| ::
                    allocNode[x] == if x in s[..j] && old(allocNode[x]) == NOT_ASSIGNED then 0
                                    else old(allocNode[x])
        invariant forall x :: x in nodesToTensors[0] <==>
                              x in old(nodesToTensors[0]) || (x in s[..j] && x != OPTIONAL_TENSOR)
        invariant nodesToTensors[1..] == old(nodesToTensors[1..])
      {
        assert s[..j + 1] == s[..j] + [s[j]];
        if s[j] != OPTIONAL_TENSOR {
          refcounts := refcounts[s[j] := refcounts[s[j]] + 1];
          status := PlanAllocate(0, s[j]);
          assert status.Ok?;
          nodesToTensors := nodesToTensors[0 := nodesToTensors[0] + {s[j]}];
        }
      }
      assert s[..|s|] == s;
      status := Ok;
    }

    // Counts, on top of the pinned references, how often each buffer is read.
    method CountBufferReads(pins: seq<nat>) returns (counts: seq<int>)
      requires InRange(graph, |tensors|) && |pins| == |tensors|
      requires actualTensorId == Aliases(CurrentPlan())
      ensures |counts| == |tensors|
      ensures forall r | 0 <= r < |tensors| ::
                counts[r] == pins[r] + BufferReadCount(graph, actualTensorId, |graph.nodes|, r)
    {
      counts := pins;
      ghost var m := actualTensorId;
      for i := 0 to |graph.nodes|
        invariant |counts| == |tensors|
        invariant forall r | 0 <= r < |tensors| :: counts[r] == pins[r] + BufferReadCount(graph, m, i, r)
      {
        var inputs := graph.nodes[i].inputs;
        for j := 0 to |inputs|
          invariant |counts| == |tensors|
          invariant forall r | 0 <= r < |tensors| ::
                      counts[r] == pins[r] + BufferReadCount(graph, m, i, r) + BufferReadsTo(inputs, m, j, r)
        {
          if inputs[j] != OPTIONAL_TENSOR {
            RootInRange(CurrentPlan(), |graph.nodes|, inputs[j]);
            var r := FindSharedTensor(actualTensorId, inputs[j]);
            counts := counts[r := counts[r] + 1];
          }
        }
      }
    }

    ghost predicate Shaped()
      reads this
    {
      && InRange(graph, |tensors|)
      && |allocNode| == |deallocNode| == |tensors|
      && |nodesToTensors| == (if graph.nodes == [] then 1 else |graph.nodes|)
      && actualTensorId == Aliases(CurrentPlan())
    }

    // The state of all release decisions after the first i nodes and j inputs of node i.
    ghost predicate Releasing(counts: seq<int>, i: nat, j: nat)
      requires i <= |graph.nodes| && (j == 0 || (i < |graph.nodes| && j <= |graph.nodes[i].inputs|))
      reads this
    {
      && |counts| == |allocNode| == |deallocNode|
      && forall r | 0 <= r < |counts| ::
          CountState(graph, actualTensorId, allocNode[r], deallocNode[r], counts[r], i, j, r)
    }

    method AllocateOutputs(i: nat) returns (status: Status)
      requires Shaped() && i < |graph.nodes|
      requires WellFormed(graph) ==>
                 forall x | Writes(graph, i, x) :: allocNode[x] == NOT_ASSIGNED && deallocNode[x] == NOT_ASSIGNED
      modifies this`allocNode, this`nodesToTensors
      ensures Shaped()
      ensures WellFormed(graph) ==> status.Ok?
      ensures WellFormed(graph) ==> forall x | 0 <= x < |tensors| ::
                allocNode[x] == if Writes(graph, i, x) then i else old(allocNode[x])
      ensures status.Ok? ==> forall x ::
                x in nodesToTensors[i] <==> x in old(nodesToTensors[i]) || Writes(graph, i, x)
      ensures forall k | 0 <= k < |nodesToTensors| && k != i :: nodesToTensors[k] == old(nodesToTensors[k])
    {
      hide WellFormed, InRange, Aliases;
      OutputsInRange(i);
      var outputs := graph.nodes[i].outputs;
      for j := 0 to |outputs|
        invariant Shaped()
        invariant WellFormed(graph) ==> forall x | 0 <= x < |tensors| ::
                    allocNode[x] == if x in outputs[..j] then i else old(allocNode[x])
        invariant forall x :: x in nodesToTensors[i] <==>
                              x in old(nodesToTensors[i]) || (x != OPTIONAL_TENSOR && x in outputs[..j])
        invariant forall k | 0 <= k < |nodesToTensors| && k != i :: nodesToTensors[k] == old(nodesToTensors[k])
      {
        assert outputs[..j + 1] == outputs[..j] + [outputs[j]];
        var x := outputs[j];
        if x == OPTIONAL_TENSOR {
          continue;
        }
        assert Writes(graph, i, x);
        nodesToTensors := nodesToTensors[i := nodesToTensors[i] + {x}];
        status := PlanAllocate(i, x);
        if status.Error? {
          return;
        }
      }
      assert outputs[..|outputs|] == outputs;
      status := Ok;
    }

    lemma OutputsInRange(i: nat)
      requires InRange(graph, |tensors|) && i < |graph.nodes|
      ensures forall j | 0 <= j < |graph.nodes[i].outputs| :: IsTensorOrOptional(graph.nodes[i].outputs[j], |tensors|)
    {
      assert NodeInRange(graph.nodes[i], |tensors|);
    }

    // The reference that input j of node i holds is dropped.
    method ReleaseInput(i: nat, j: nat, before: seq<int>) returns (status: Status, counts: seq<int>)
      requires Shaped() && i < |graph.nodes| && |before| == |tensors| && j < |graph.nodes[i].inputs|
      requires Releasing(before, i, j)
      modifies this`deallocNode
      ensures Shaped()
      ensures WellFormed(graph) ==> status.Ok?
      ensures status.Ok? ==> Releasing(counts, i, j + 1)
    {
      hide WellFormed, CountState, InRange, FindSharedTensor, AliasesUpTo;
      InputInRange(i, j);
      var x := graph.nodes[i].inputs[j];
      counts, status := before, Ok;
      if x != OPTIONAL_TENSOR {
        RootInRange(CurrentPlan(), |graph.nodes|, x);
        var r := FindSharedTensor(actualTensorId, x);
        counts := counts[r := counts[r] - 1];
        DropReference(graph, actualTensorId, allocNode[r], deallocNode[r], before[r], i, j, r);
        if counts[r] == 0 {
          status := PlanDeallocate(i, r);
        }
      }
      forall r | 0 <= r < |counts| && status.Ok?
        ensures CountState(graph, actualTensorId, allocNode[r], deallocNode[r], counts[r], i, j + 1, r)
      {
        if x == OPTIONAL_TENSOR || FindSharedTensor(actualTensorId, x) != r {
          OtherReference(graph, actualTensorId, allocNode[r], old(deallocNode)[r], before[r], i, j, r);
        }
      }
    }

    lemma InputInRange(i: nat, j: nat)
      requires InRange(graph, |tensors|) && i < |graph.nodes| && j < |graph.nodes[i].inputs|
      ensures IsTensorOrOptional(graph.nodes[i].inputs[j], |tensors|) && |graph.nodes| < NOT_ASSIGNED
    {
      assert NodeInRange(graph.nodes[i], |tensors|);
    }

    method ReleaseInputs(i: nat, before: seq<int>) returns (status: Status, counts: seq<int>)
      requires Shaped() && i < |graph.nodes| && |before| == |tensors|
      requires Releasing(before, i, 0)
      modifies this`deallocNode
      ensures Shaped()
      ensures WellFormed(graph) ==> status.Ok?
      ensures status.Ok? ==> Releasing(counts, i + 1, 0)
    {
      hide WellFormed;
      hide ReleaseState;
      counts := before;
      for j := 0 to |graph.nodes[i].inputs|
        invariant Shaped() && Releasing(counts, i, j)
      {
        status, counts := ReleaseInput(i, j, counts);
        if status.Error? {
          return;
        }
      }
      status := Ok;
      forall r | 0 <= r < |counts|
        ensures CountState(graph, actualTensorId, allocNode[r], deallocNode[r], counts[r], i + 1, 0, r)
      {
        assert CountState(graph, actualTensorId, allocNode[r], deallocNode[r], counts[r], i, |graph.nodes[i].inputs|, r);
      }
    }

    // The plan after the first i nodes.
    ghost predicate PlannedUpTo(counts: seq<int>, i: nat)
      requires i <= |graph.nodes|
      reads this
    {
      && Shaped() && |counts| == |tensors|
      && (WellFormed(graph) ==> ExactAllocation(graph, allocNode, i))
      && (if preserveAllTensors then forall r | 0 <= r < |deallocNode| :: deallocNode[r] == NOT_ASSIGNED
          else Releasing(counts, i, 0))
      && (forall k | 0 <= k < i :: ExactQueue(graph, nodesToTensors[k], k))
      && (forall k | i <= k < |nodesToTensors| :: InitialQueue(graph, nodesToTensors[k], k))
    }

    // The main loop of PlanAllocations, in execution order.
    method PlanNodes(initial: seq<int>) returns (status: Status)
      requires PlannedUpTo(initial, 0)
      modifies this`allocNode, this`deallocNode, this`nodesToTensors
      ensures Shaped()
      ensures WellFormed(graph) ==> status.Ok?
      ensures status.Ok? ==> exists counts :: PlannedUpTo(counts, |graph.nodes|)
    {
      var counts := initial;
      for i := 0 to |graph.nodes|
        invariant PlannedUpTo(counts, i)
      {
        status, counts := PlanNode(i, counts);
        if status.Error? {
          return;
        }
      }
      status := Ok;
    }

    method PlanNode(i: nat, before: seq<int>) returns (status: Status, counts: seq<int>)
      requires i < |graph.nodes| && PlannedUpTo(before, i)
      modifies this`allocNode, this`deallocNode, this`nodesToTensors
      ensures Shaped()
      ensures WellFormed(graph) ==> status.Ok?
      ensures status.Ok? ==> PlannedUpTo(counts, i + 1)
    {
      hide WellFormed, CountState, InRange, AllocatedAt, Writes, ExactQueue, InitialQueue;
      counts := before;
      if WellFormed(graph) {
        OutputsAreNew(before, i);
      }
      status := AllocateOutputs(i);
      if status.Error? {
        return;
      }
      ghost var alloc0, dealloc0 := old(allocNode), old(deallocNode);
      assert InitialQueue(graph, old(nodesToTensors)[i], i);
      OutputsQueued(graph, old(nodesToTensors)[i], nodesToTensors[i], i);
      if WellFormed(graph) {
        forall x | 0 <= x < |tensors|
          ensures AllocatedAt(graph, allocNode[x], x, i + 1)
        {
          AllocatedNext(graph, alloc0[x], allocNode[x], x, i);
        }
      }
      if !preserveAllTensors {
        forall r | 0 <= r < |tensors|
          ensures CountState(graph, actualTensorId, allocNode[r], deallocNode[r], counts[r], i, 0, r)
        {
          assert CountState(graph, actualTensorId, alloc0[r], dealloc0[r], counts[r], i, 0, r);
          if !WellFormed(graph) {
            CountedAnyway(graph, actualTensorId, alloc0[r], dealloc0[r], counts[r], i, 0, r, allocNode[r]);
          } else if Writes(graph, i, r) {
            NewlyPlanned(CurrentPlan(), dealloc0[r], allocNode[r], counts[r], i, r);
          }
        }
        status, counts := ReleaseInputs(i, counts);
      }
    }

    // The outputs of the next node have not been seen by the planner.
    lemma OutputsAreNew(counts: seq<int>, i: nat)
      requires i < |graph.nodes| && PlannedUpTo(counts, i) && WellFormed(graph)
      ensures forall x | Writes(graph, i, x) :: allocNode[x] == NOT_ASSIGNED && deallocNode[x] == NOT_ASSIGNED
    {
      forall x | Writes(graph, i, x)
        ensures allocNode[x] == NOT_ASSIGNED && deallocNode[x] == NOT_ASSIGNED
      {
        assert AllocatedAt(graph, allocNode[x], x, i);
        if !preserveAllTensors {
          assert CountState(graph, actualTensorId, allocNode[x], deallocNode[x], counts[x], i, 0, x);
        }
      }
    }

    // What a complete plan looks like.
    ghost predicate Planned()
      reads this
    {
      && Shaped()
      && (WellFormed(graph) ==> ExactAllocation(graph, allocNode, |graph.nodes|))
      && (WellFormed(graph) ==> ExactRelease(graph, actualTensorId, deallocNode, preserveAllTensors))
      && (forall k | 0 <= k < |nodesToTensors| :: ExactQueue(graph, nodesToTensors[k], k))
    }

    // The part of PlanAllocations that comes before any node is looked at.
    method PinGraphTensors()
      requires InRange(graph, |tensors|)
      modifies this`allocNode, this`deallocNode, this`nodesToTensors, this`refcounts
      ensures |allocNode| == |deallocNode| == |refcounts| == |tensors|
      ensures |nodesToTensors| == (if graph.nodes == [] then 1 else |graph.nodes|)
      ensures forall x | 0 <= x < |tensors| :: refcounts[x] == PinCount(graph, x)
      ensures forall x | 0 <= x < |tensors| :: deallocNode[x] == NOT_ASSIGNED
      ensures forall x | 0 <= x < |tensors| :: 
        allocNode[x] == if x in graph.inputs || x in graph.variables then 0 else NOT_ASSIGNED
      ensures forall k | 0 <= k < |nodesToTensors| :: InitialQueue(graph, nodesToTensors[k], k)
    {
      allocNode := seq(|tensors|, _ => NOT_ASSIGNED);
      deallocNode := seq(|tensors|, _ => NOT_ASSIGNED);
      nodesToTensors := seq(if graph.nodes == [] then 1 else |graph.nodes|, _ => {});
      refcounts := seq(|tensors|, _ => 0);
      AddReferences(graph.outputs);
      VariablesInRange(graph, |tensors|);
      var status := PinFromStart(graph.variables);
      status := PinFromStart(graph.inputs);
      assert forall k | 0 < k < |nodesToTensors| :: nodesToTensors[k] == nodesToTensors[1..][k - 1] == {};
    }

    method PlanAllocations() returns (status: Status)
      requires Valid()
      modifies this, arena, persistentArena
      ensures Valid() && graph == old(graph) && tensors == old(tensors) && data == old(data)
      // No consistency check of the planner fails on a graph in dependency order.
      ensures WellFormed(graph) ==> status.Ok?
      ensures status.Ok? ==> Planned() && thePlan == CurrentPlan()
      ensures |refcounts| == |tensors|
      ensures status.Ok? ==> forall x | 0 <= x < |tensors| :: refcounts[x] == RefCount(graph, x)
      ensures allocs == seq(|tensors|, _ => NO_ALLOC) && lastActiveNode == NOT_ASSIGNED && persistentRecords == {}
      ensures arena.activeAllocs == persistentArena.activeAllocs == []
    {
      hide InRange, WellFormed, ExactAllocation, ExactRelease, ExactQueue, InitialQueue, RefCount, AliasesUpTo;
      ResetAllocations();
      PinGraphTensors();
      var pins := refcounts;
      CountNodeInputs();
      IdentifyInPlaceTensors();
      status := PlanLifetimes(pins);
      thePlan := CurrentPlan();
    }

    method PlanLifetimes(pins: seq<nat>) returns (status: Status)
      requires Shaped() && |pins| == |tensors|
      requires forall x | 0 <= x < |tensors| :: pins[x] == PinCount(graph, x)
      requires forall x | 0 <= x < |tensors| :: deallocNode[x] == NOT_ASSIGNED
      requires forall x | 0 <= x < |tensors| ::
                 allocNode[x] == if x in graph.inputs || x in graph.variables then 0 else NOT_ASSIGNED
      requires forall k | 0 <= k < |nodesToTensors| :: InitialQueue(graph, nodesToTensors[k], k)
      modifies this`allocNode, this`deallocNode, this`nodesToTensors
      ensures WellFormed(graph) ==> status.Ok?
      ensures status.Ok? ==> Planned()
    {
      hide InRange, WellFormed, ExactAllocation, ExactRelease, ExactQueue, InitialQueue;
      var counts := CountBufferReads(pins);
      StartOfPlan(counts);
      status := PlanNodes(counts);
      if status.Ok? {
        PlanIsExact();
      }
    }

    lemma StartOfPlan(counts: seq<int>)
      requires Shaped() && |counts| == |tensors|
      requires forall r | 0 <= r < |tensors| ::
                 counts[r] == PinCount(graph, r) + BufferReadCount(graph, actualTensorId, |graph.nodes|, r)
      requires forall x | 0 <= x < |tensors| :: deallocNode[x] == NOT_ASSIGNED
      requires forall x | 0 <= x < |tensors| ::
                 allocNode[x] == if x in graph.inputs || x in graph.variables then 0 else NOT_ASSIGNED
      requires forall k | 0 <= k < |nodesToTensors| :: InitialQueue(graph, nodesToTensors[k], k)
      ensures PlannedUpTo(counts, 0)
    {
      hide WellFormed;
    }

    lemma PlanIsExact()
      requires exists counts :: PlannedUpTo(counts, |graph.nodes|)
      ensures Planned()
    {
      var counts :| PlannedUpTo(counts, |graph.nodes|);
      if WellFormed(graph) && !preserveAllTensors {
        forall r | 0 <= r < |deallocNode|
          ensures ReleasedAt(graph, actualTensorId, deallocNode[r], r)
        {
          assert CountState(graph, actualTensorId, allocNode[r], deallocNode[r], counts[r], |graph.nodes|, 0, r);
          ReleaseStateAtEnd(graph, actualTensorId, deallocNode[r], allocNode[r], r);
        }
      }
    }

    // ---- Execution

    // What every call after PlanAllocations relies on.
    ghost predicate Ready()
      reads this, arena, persistentArena
    {
      && ArenasValid()
      && |graph.nodes| < NOT_ASSIGNED
      && |nodesToTensors| == (if graph.nodes == [] then 1 else |graph.nodes|)
      && |allocNode| == |deallocNode| && |allocNode| <= |tensors| && |allocs| <= |tensors|
      && (forall k | 0 <= k < |nodesToTensors| :: forall x | x in nodesToTensors[k] :: 0 <= x < |tensors|)
      && (forall x | x in actualTensorId :: 0 <= x < |tensors| && 0 <= actualTensorId[x] < |tensors|)
      && Flat(actualTensorId)
    }

    ghost predicate ArenasValid()
      reads this`allocs, arena, persistentArena
    {
      && arena != persistentArena
      && arena.Valid() && persistentArena.Valid()
      && (forall a | a in allocs :: a.InBounds())
      && Tidy(allocs, arena.activeAllocs, persistentArena.activeAllocs, tensorAlignment)
    }

    // The tables cover every tensor.
    ghost predicate Grown()
      reads this
    {
      |allocNode| == |deallocNode| == |allocs| == |tensors|
    }

    // A tensor is queued where its lifetime starts, and nowhere else.
    ghost predicate QueuesMatch()
      reads this
    {
      QueuedAtFirstUse(nodesToTensors, allocNode)
    }

    // The arena invariant: buffers in use together are disjoint, and the arena still
    // remembers all buffers in use at node `floor` or later.
    ghost predicate Placed(floor: int)
      reads this, arena, persistentArena
    {
      && Spread(persistentRecords, allocs, arena.activeAllocs, arena.highWaterMark, floor)
      && PersistentSpread(persistentRecords, allocs, persistentArena.activeAllocs, persistentArena.highWaterMark)
      && RecordsQueued(allocs, nodesToTensors)
      && ArenaTensorsOnly(tensors, persistentRecords, allocs)
    }

    // x is an arena tensor now, and still has a buffer in the persistent arena.
    ghost predicate Misplaced(x: int)
      reads this
    {
      && 0 <= x < |tensors| && tensors[x].allocationType == ArenaRw
      && RecordOf(allocs, x).size != 0 && x in persistentRecords
    }

    // Neither arena can run out of addresses, the alignment is one they can give, and no
    // arena tensor has a buffer in the persistent arena.
    ghost predicate RoomFor(room: Room)
      reads this, arena, persistentArena
    {
      && 0 < tensorAlignment <= arena.bufferAlignment && tensorAlignment <= persistentArena.bufferAlignment
      && room.Suffices(tensorAlignment)
      && (forall t | t in tensors :: t.bytes <= room.largest)
      && EndsBelow(arena.activeAllocs, room.highest) && EndsBelow(persistentArena.activeAllocs, room.highest)
      && EndsBelow(allocs, room.highest)
      && NothingMisplaced(tensors, persistentRecords, allocs)
    }

    ghost function HoldingAt(x: int): Holding
      reads this`allocs, this`persistentRecords
    {
      HoldingOf(allocs, persistentRecords, x)
    }

    ghost predicate NothingPlaced()
      reads this
    {
      forall x :: !Recorded(persistentRecords, allocs, x)
    }

    // The tables still are those of the last plan.
    ghost predicate HoldsPlan()
      reads this
    {
      && thePlan.graph == graph && thePlan.preserveAll == preserveAllTensors
      && PlanKept(thePlan, actualTensorId, allocNode, deallocNode, nodesToTensors)
      && QueuesMatch()
      && TemporariesDisjoint(graph, |tensors|)
    }

    // The caller goes on where the last call stopped, or starts from scratch.
    ghost predicate InSequence(first: int, last: int)
      reads this, arena, persistentArena
    {
      && HoldsPlan()
      && Placed(lastActiveNode)
      && first <= last
      && (lastActiveNode <= first || NothingPlaced())
    }

    // Gathers the queues of nodes first to last.
    method GetTensorsToAllocate(first: int, last: int) returns (list: seq<int>)
      requires 0 <= first && last < |nodesToTensors|
      ensures forall x :: x in list <==> Queued(nodesToTensors, x, first, last)
      ensures |list| == QueueLength(nodesToTensors, first, last)
    {
      list := [];
      var i := first;
      while i <= last
        invariant first <= i && (i <= last + 1 || i == first)
        invariant |list| == QueueLength(nodesToTensors, first, i - 1)
        invariant forall x :: x in list <==> Queued(nodesToTensors, x, first, i - 1)
      {
        var elements := Elements(nodesToTensors[i]);
        ghost var before := list;
        list := list + elements;
        forall x
          ensures x in list <==> Queued(nodesToTensors, x, first, i)
        {
          assert x in list <==> x in before || x in nodesToTensors[i];
          if Queued(nodesToTensors, x, first, i) && !Queued(nodesToTensors, x, first, i - 1) {
            var k :| 0 <= k < |nodesToTensors| && first <= k <= i && x in nodesToTensors[k];
            assert k == i;
          }
          if Queued(nodesToTensors, x, first, i - 1) {
            var k :| 0 <= k < |nodesToTensors| && first <= k <= i - 1 && x in nodesToTensors[k];
            assert k <= i;
          }
        }
        i := i + 1;
      }
    }

    // The tensors of the list whose arena memory is missing or too small.
    method SelectTensors(list: seq<int>) returns (selected: seq<int>)
      requires |allocs| == |tensors| && AllTensors(list, |tensors|)
      ensures forall x :: x in selected <==>
                && x in list && 0 <= x < |tensors|
                && (|| (tensors[x].allocationType == ArenaRw && allocs[x].size < tensors[x].bytes)
                    || tensors[x].allocationType == ArenaRwPersistent)
      ensures |selected| <= |list|
    {
      selected := [];
      for i := 0 to |list|
        invariant |selected| <= i
        invariant forall x :: x in selected <==>
                    && x in list[..i] && 0 <= x < |tensors|
                    && (|| (tensors[x].allocationType == ArenaRw && allocs[x].size < tensors[x].bytes)
                        || tensors[x].allocationType == ArenaRwPersistent)
      {
        assert list[..i + 1] == list[..i] + [list[i]];
        var tensor := tensors[list[i]];
        if tensor.allocationType == ArenaRw {
          if allocs[list[i]].size < tensor.bytes {
            selected := selected + [list[i]];
          }
        } else if tensor.allocationType == ArenaRwPersistent {
          selected := selected + [list[i]];
        }
      }
      assert list[..|list|] == list;
    }

    // What the nodes of the range need memory for.
    method ChooseTensors(first: int, last: int) returns (selected: seq<int>)
      requires Ready() && Grown() && 0 <= first && last < |nodesToTensors|
      ensures forall x :: x in selected <==>
                Queued(nodesToTensors, x, first, last) && 0 <= x < |tensors| && NeedsMemory(tensors[x], allocs[x])
      ensures |selected| <= QueueLength(nodesToTensors, first, last)
    {
      hide Queued, Tidy;
      var list := GetTensorsToAllocate(first, last);
      QueuedInRange(first, last);
      assert forall j | 0 <= j < |list| :: list[j] in list;
      selected := SelectTensors(list);
    }

    // Sorts a list of tensors into the order in which their offsets are chosen.
    method CreateTensorAllocationVector(list: seq<int>) returns (sorted: seq<int>)
      requires |allocNode| == |deallocNode| == |tensors| && AllTensors(list, |tensors|)
      ensures multiset(sorted) == multiset(list) && (forall x :: x in sorted <==> x in list)
      ensures AllTensors(sorted, |tensors|) && InAllocationOrder(tensors, allocNode, deallocNode, sorted)
      // Tensors needed from the first node to the end come first, by index, then the others
      // from large to small, those of one size in the order of their first use.
      ensures forall j, k | 0 <= j < k < |sorted| ::
                if allocNode[sorted[j]] == 0 && deallocNode[sorted[j]] == NOT_ASSIGNED
                then allocNode[sorted[k]] == 0 && deallocNode[sorted[k]] == NOT_ASSIGNED ==> sorted[j] <= sorted[k]
                else && !(allocNode[sorted[k]] == 0 && deallocNode[sorted[k]] == NOT_ASSIGNED)
                     && tensors[sorted[j]].bytes >= tensors[sorted[k]].bytes
                     && (tensors[sorted[j]].bytes == tensors[sorted[k]].bytes ==>
                           allocNode[sorted[j]] <= allocNode[sorted[k]])
    {
      sorted := SortForAllocation(tensors, allocNode, deallocNode, list);
      OrderInFields(tensors, allocNode, deallocNode, sorted);
      hide InAllocationOrder, WholeRun;
    }

    // Gives tensor x memory, unless it shares a buffer that is still good for it.
    method AllocateTensor(x: int, ghost floor: int, ghost placed: bool, ghost room: Room) returns (status: Status)
      requires Ready() && Grown() && 0 <= x < |tensors|
      requires tensors[x].allocationType == ArenaRw || tensors[x].allocationType == ArenaRwPersistent
      requires placed ==> Placed(floor) && StartsFrom(allocNode, nodesToTensors, x, floor)
      modifies this`allocs, this`actualTensorId, this`persistentRecords, arena, persistentArena
      ensures Grown() && (status.Ok? ==> Ready())
      ensures arena.committed == old(arena.committed) && arena.bufferSize == old(arena.bufferSize)
      ensures arena.base == old(arena.base) && persistentArena.base == old(persistentArena.base)
      ensures persistentArena.committed == old(persistentArena.committed)
      ensures persistentArena.bufferSize == old(persistentArena.bufferSize)
      ensures actualTensorId == if KeepsSharing(tensors, old(actualTensorId), x) then old(actualTensorId)
                                else old(actualTensorId) - {x}
      ensures forall y | 0 <= y < |tensors| && y != x :: HoldingAt(y) == old(HoldingAt(y))
      ensures status.Ok? ==>
                Settled(tensors, allocNode, deallocNode, x, old(actualTensorId), old(HoldingAt(x)), HoldingAt(x))
      ensures status.Ok? && placed ==> Placed(floor)
      ensures old(RoomFor(room)) && room.count > 0 ==> status.Ok? && RoomFor(room.After(tensorAlignment))
    {
      hide Tidy, Spread, PersistentSpread, RecordsQueued, EndsBelow, NothingMisplaced, ArenaTensorsOnly, StartsFrom;
      hide TightestOffset, LiesInTightestGap;
      if RoomFor(room) && room.count > 0 {
        RoomIsKept(room);
      }
      status := Ok;
      if x in actualTensorId {
        var root := tensors[actualTensorId[x]];
        if root.allocationType != ArenaRw || root.bytes != tensors[x].bytes {
          actualTensorId := actualTensorId - {x};
        } else {
          return;
        }
      }
      ghost var aliases := actualTensorId;
      if tensors[x].allocationType == ArenaRw {
        status := AllocateInArena(x, floor, placed, room);
        if status.Error? {
          return;
        }
      }
      if tensors[x].allocationType == ArenaRwPersistent && allocs[x].size == 0 {
        status := AllocatePersistent(x, floor, placed, room);
      }
    }

    // Room for one more buffer that is not used is still there.
    lemma RoomIsKept(room: Room)
      requires RoomFor(room) && room.count > 0
      ensures RoomFor(room.After(tensorAlignment))
    {
      RoomForOne(room, tensorAlignment, 0, arena.activeAllocs);
    }

    method AllocateInArena(x: int, ghost floor: int, ghost placed: bool, ghost room: Room) returns (status: Status)
      requires ArenasValid() && Grown() && 0 <= x < |tensors| && tensors[x].allocationType == ArenaRw
      requires placed ==> Placed(floor) && StartsFrom(allocNode, nodesToTensors, x, floor)
      modifies this`allocs, this`persistentRecords, arena`activeAllocs, arena`highWaterMark
      ensures Grown() && (status.Ok? ==> ArenasValid())
      ensures forall y | 0 <= y < |tensors| && y != x :: HoldingAt(y) == old(HoldingAt(y))
      ensures status.Ok? ==>
                HoldingAt(x) == Holding(Alloc(allocs[x].offset, tensors[x].bytes, x, allocNode[x], deallocNode[x]), false)
      ensures status.Ok? && placed ==> Placed(floor)
      // The buffer goes into the tightest gap.
      ensures status.Ok? && tensors[x].bytes > 0 ==>
                && 0 < tensorAlignment
                && TightestOffset(old(arena.activeAllocs), allocs[x].offset, tensorAlignment, tensors[x].bytes,
                                  allocNode[x], deallocNode[x])
                && LiesInTightestGap(old(arena.activeAllocs), allocs[x].offset, tensorAlignment, tensors[x].bytes,
                                     allocNode[x], deallocNode[x])
      ensures old(RoomFor(room)) && room.count > 0 ==> status.Ok? && RoomFor(room.After(tensorAlignment))
    {
      hide BestOffset, TightestOffset, LiesInGap, LiesInTightestGap, DisjointFromMeeting, InsertByOffset, AllAligned;
      hide Spread, PersistentSpread, RecordsQueued;
      hide SortedByOffset, Roomy, EndsBelow, NothingMisplaced, ArenaTensorsOnly;
      if RoomFor(room) && room.count > 0 {
        RoomIsKept(room);
        assert tensors[x] in tensors;
        RoomForOne(room, tensorAlignment, tensors[x].bytes, arena.activeAllocs);
      }
      var record;
      status, record := arena.Allocate(tensorAlignment, tensors[x].bytes, x, allocNode[x], deallocNode[x], allocs[x]);
      allocs, persistentRecords := allocs[x := record], persistentRecords - {x};
      PlacedRight(tensors, old(persistentRecords), old(allocs), x, record, persistentRecords);
      if status.Ok? {
        if record.size > 0 && old(RoomFor(room)) && room.count > 0 {
          StaysBelow(room, tensorAlignment, old(arena.activeAllocs), record, record.firstNode, record.lastNode);
        }
        if old(RoomFor(room)) && room.count > 0 {
          RecordEndsBelow(old(allocs), x, record, room.After(tensorAlignment).highest);
        }
        ZeroIsAligned(tensorAlignment);
        TidyRecord(old(allocs), arena.activeAllocs, persistentArena.activeAllocs, tensorAlignment, x, record);
        hide Tidy;
      }
      if status.Ok? && placed {
        if record.size > 0 {
          InsertKeepsOrder(old(arena.activeAllocs), record);
        }
        SpreadGrows(old(persistentRecords), old(allocs), old(arena.activeAllocs), old(arena.highWaterMark), floor, x, record,
                    arena.activeAllocs, arena.highWaterMark);
        PersistentSpreadIgnores(old(persistentRecords), old(allocs), persistentArena.activeAllocs,
                                persistentArena.highWaterMark, x, record);
        RecordIsQueued(old(allocs), nodesToTensors, x, record);
      }
    }

    method AllocatePersistent(x: int, ghost floor: int, ghost placed: bool, ghost room: Room) returns (status: Status)
      requires ArenasValid() && Grown() && 0 <= x < |tensors| && tensors[x].allocationType == ArenaRwPersistent
      requires allocs[x].size == 0
      requires placed ==> Placed(floor) && StartsFrom(allocNode, nodesToTensors, x, floor)
      modifies this`allocs, this`persistentRecords, persistentArena`activeAllocs, persistentArena`highWaterMark
      ensures Grown() && (status.Ok? ==> ArenasValid())
      ensures forall y | 0 <= y < |tensors| && y != x :: HoldingAt(y) == old(HoldingAt(y))
      ensures status.Ok? ==>
                HoldingAt(x) ==
                  if tensors[x].bytes > 0
                  then Holding(Alloc(allocs[x].offset, tensors[x].bytes, x, allocNode[x], NOT_ASSIGNED), true)
                  else old(HoldingAt(x))
      ensures status.Ok? && placed ==> Placed(floor)
      ensures status.Ok? && tensors[x].bytes > 0 ==>
                && 0 < tensorAlignment
                && TightestOffset(old(persistentArena.activeAllocs), allocs[x].offset, tensorAlignment, tensors[x].bytes,
                                  allocNode[x], NOT_ASSIGNED)
                && LiesInTightestGap(old(persistentArena.activeAllocs), allocs[x].offset, tensorAlignment,
                                     tensors[x].bytes, allocNode[x], NOT_ASSIGNED)
      ensures old(RoomFor(room)) && room.count > 0 ==> status.Ok? && RoomFor(room.After(tensorAlignment))
    {
      hide BestOffset, TightestOffset, LiesInGap, LiesInTightestGap, DisjointFromMeeting, InsertByOffset, AllAligned;
      hide Spread, PersistentSpread, RecordsQueued;
      hide SortedByOffset, Roomy, EndsBelow, NothingMisplaced, ArenaTensorsOnly;
      if RoomFor(room) && room.count > 0 {
        RoomIsKept(room);
        assert tensors[x] in tensors;
        RoomForOne(room, tensorAlignment, tensors[x].bytes, persistentArena.activeAllocs);
      }
      status := Ok;
      if allocs[x].size < tensors[x].bytes {
        var record;
        status, record := persistentArena.Allocate(tensorAlignment, tensors[x].bytes, x, allocNode[x], NOT_ASSIGNED,
                                                   allocs[x]);
        allocs, persistentRecords := allocs[x := record], persistentRecords + {x};
        PlacedRight(tensors, old(persistentRecords), old(allocs), x, record, persistentRecords);
        if status.Ok? {
          if old(RoomFor(room)) && room.count > 0 {
            StaysBelow(room, tensorAlignment, old(persistentArena.activeAllocs), record, record.firstNode, record.lastNode);
            RecordEndsBelow(old(allocs), x, record, room.After(tensorAlignment).highest);
          }
          TidyRecord(old(allocs), arena.activeAllocs, persistentArena.activeAllocs, tensorAlignment, x, record);
          hide Tidy;
        }
        if status.Ok? && placed {
          InsertKeepsOrder(old(persistentArena.activeAllocs), record);
          PersistentSpreadGrows(old(persistentRecords), old(allocs), old(persistentArena.activeAllocs),
                                old(persistentArena.highWaterMark), x, record, persistentArena.activeAllocs,
                                persistentArena.highWaterMark);
          SpreadIgnores(old(persistentRecords), old(allocs), arena.activeAllocs, arena.highWaterMark, floor, x, record);
          RecordIsQueued(old(allocs), nodesToTensors, x, record);
        }
      }
    }

    method CalculateAllocations(first: int, last: int, ghost placed: bool, ghost room: Room)
      returns (status: Status, tensorsAllocated: seq<int>)
      requires Ready() && Grown() && 0 <= first && last < |nodesToTensors|
      requires placed ==> InSequence(first, last)
      modifies this`allocs, this`actualTensorId, this`persistentRecords, this`lastActiveNode, arena, persistentArena
      ensures SameBuffers(old(Buffers()))
      ensures forall x :: x in tensorsAllocated <==>
                Queued(nodesToTensors, x, first, last) && 0 <= x < |tensors| && NeedsMemory(tensors[x], old(allocs)[x])
      ensures status.Ok? ==> Ready() && Grown() && lastActiveNode == last
      ensures status.Ok? ==> actualTensorId == AliasesAfter(tensors, old(actualTensorId), tensorsAllocated)
      ensures Grown()
      ensures forall x | 0 <= x < |tensors| && x !in tensorsAllocated :: HoldingAt(x) == old(HoldingAt(x))
      ensures status.Ok? ==> forall x | 0 <= x < |tensors| && x in tensorsAllocated ::
                Settled(tensors, allocNode, deallocNode, x, old(actualTensorId), old(HoldingAt(x)), HoldingAt(x))
      ensures status.Ok? && placed ==> Placed(last)
      ensures old(RoomFor(room)) && QueueLength(nodesToTensors, first, last) <= room.count ==>
                status.Ok? && RoomFor(room.Filled(tensorAlignment))
    {
      hide Settled, Spread, PersistentSpread, RecordsQueued, NeedsMemory, StartsFrom, Queued, PlanKept, TemporariesDisjoint;
      hide QueuedAtFirstUse, Tidy, EndsBelow, NothingMisplaced, ArenaTensorsOnly, KeepsSharing, QueueLength, WellFormed;
      hide Flat;
      hide AliasesAfter, InAllocationOrder;
      var selected := ChooseTensors(first, last);
      QueuedInRange(first, last);
      tensorsAllocated := selected;
      if selected == [] {
        NoneDropped(tensors, actualTensorId);
        if placed {
          PlacedLater(lastActiveNode, last);
        }
        lastActiveNode := last;
        if old(RoomFor(room)) {
          RoomToFill(room);
        }
        return Ok, selected;
      }
      NeedsArena();
      status, tensorsAllocated := AllocateSelected(selected, first, placed, room);
      if status.Ok? {
        if placed {
          PlacedLater(first, last);
        }
        lastActiveNode := last;
      }
    }

    method AllocateSelected(selected: seq<int>, first: int, ghost placed: bool, ghost room: Room)
      returns (status: Status, list: seq<int>)
      requires Ready() && Grown()
      requires forall x | x in selected ::
                 && 0 <= x < |tensors|
                 && (tensors[x].allocationType == ArenaRw || tensors[x].allocationType == ArenaRwPersistent)
      requires placed ==> Placed(lastActiveNode) && (lastActiveNode <= first || NothingPlaced())
      requires placed ==> forall x | x in selected :: StartsFrom(allocNode, nodesToTensors, x, first)
      modifies this`allocs, this`actualTensorId, this`persistentRecords, this`lastActiveNode, arena, persistentArena
      ensures SameBuffers(old(Buffers())) && Grown() && forall x :: x in list <==> x in selected
      ensures forall x | 0 <= x < |tensors| && x !in list :: HoldingAt(x) == old(HoldingAt(x))
      ensures status.Ok? ==> Ready()
      ensures status.Ok? ==> actualTensorId == AliasesAfter(tensors, old(actualTensorId), list)
      ensures status.Ok? ==> forall x | 0 <= x < |tensors| && x in list ::
                Settled(tensors, allocNode, deallocNode, x, old(actualTensorId), old(HoldingAt(x)), HoldingAt(x))
      ensures status.Ok? && placed ==> Placed(first)
      ensures old(RoomFor(room)) && |selected| <= room.count ==> status.Ok? && RoomFor(room.Filled(tensorAlignment))
    {
      hide Settled, Spread, PersistentSpread, RecordsQueued, StartsFrom, Tidy, EndsBelow, NothingMisplaced;
      hide ArenaTensorsOnly;
      hide KeepsSharing, WholeRun, AliasesAfter, InAllocationOrder, Flat;
      ForgetOldBuffers(first, placed);
      assert forall j | 0 <= j < |selected| :: selected[j] in selected;
      list := CreateTensorAllocationVector(selected);
      assert |list| == |multiset(list)| == |multiset(selected)| == |selected|;
      status := AllocateAll(list, first, placed, room);
    }

    lemma PlacedLater(floor: int, floor': int)
      requires Placed(floor) && (floor <= floor' || NothingPlaced())
      ensures Placed(floor')
    {
    }

    // Drops from the arena what no tensor of the coming nodes can collide with.
    method ForgetOldBuffers(first: int, ghost placed: bool)
      requires ArenasValid()
      requires placed ==> Placed(lastActiveNode) && (lastActiveNode <= first || NothingPlaced())
      modifies this`lastActiveNode, arena`activeAllocs
      ensures ArenasValid()
      ensures placed ==> Placed(first)
      ensures forall room :: old(RoomFor(room)) ==> RoomFor(room)
    {
      if first < lastActiveNode {
        arena.ResetAllocs();
        lastActiveNode := first;
      } else {
        arena.PurgeActiveAllocs(first);
        if placed {
          SpreadAfterPurge(persistentRecords, allocs, old(arena.activeAllocs), arena.activeAllocs, arena.highWaterMark,
                           lastActiveNode, first);
        }
      }
    }

    lemma QueuedInRange(first: int, last: int)
      requires Ready()
      ensures forall x | Queued(nodesToTensors, x, first, last) :: 0 <= x < |tensors|
      ensures QueuesMatch() && 0 <= first ==>
                forall x | Queued(nodesToTensors, x, first, last) :: StartsFrom(allocNode, nodesToTensors, x, first)
    {
    }

    // The arenas' memory blocks.
    ghost function Buffers(): (nat, int, bool, nat, int, bool)
      reads this, arena, persistentArena
    {
      (arena.bufferSize, arena.base, arena.committed,
       persistentArena.bufferSize, persistentArena.base, persistentArena.committed)
    }

    ghost predicate SameBuffers(before: (nat, int, bool, nat, int, bool))
      reads this, arena, persistentArena
    {
      Buffers() == before
    }

    method AllocateAll(list: seq<int>, ghost floor: int, ghost placed: bool, ghost room: Room) returns (status: Status)
      requires Ready() && Grown()
      requires forall x | x in list ::
                 && 0 <= x < |tensors|
                 && (tensors[x].allocationType == ArenaRw || tensors[x].allocationType == ArenaRwPersistent)
      requires placed ==> Placed(floor) && forall x | x in list :: StartsFrom(allocNode, nodesToTensors, x, floor)
      modifies this`allocs, this`actualTensorId, this`persistentRecords, arena, persistentArena
      ensures SameBuffers(old(Buffers()))
      ensures Grown()
      ensures forall x | 0 <= x < |tensors| && x !in list :: HoldingAt(x) == old(HoldingAt(x))
      ensures status.Ok? ==> Ready()
      ensures status.Ok? ==> actualTensorId == AliasesAfter(tensors, old(actualTensorId), list)
      ensures status.Ok? ==> forall x | 0 <= x < |tensors| && x in list ::
                Settled(tensors, allocNode, deallocNode, x, old(actualTensorId), old(HoldingAt(x)), HoldingAt(x))
      ensures status.Ok? && placed ==> Placed(floor)
      ensures old(RoomFor(room)) && |list| <= room.count ==> status.Ok? && RoomFor(room.Filled(tensorAlignment))
    {
      status := Ok;
      ghost var aliases, left := actualTensorId, room;
      hide Tidy, EndsBelow, Spread, PersistentSpread, RecordsQueued, NothingMisplaced, ArenaTensorsOnly;
      for i := 0 to |list|
        invariant status.Ok? && Ready() && Grown() && SameBuffers(old(Buffers()))
        invariant forall x | 0 <= x < |tensors| && x !in list[..i] :: HoldingAt(x) == old(HoldingAt(x))
        invariant actualTensorId == AliasesAfter(tensors, aliases, list[..i])
        invariant forall x | 0 <= x < |tensors| && x in list[..i] ::
                    Settled(tensors, allocNode, deallocNode, x, aliases, old(HoldingAt(x)), HoldingAt(x))
        invariant placed ==> Placed(floor)
        invariant old(RoomFor(room)) && |list| <= room.count ==>
                      && RoomFor(left) && |list| - i <= left.count
                      && left.Filled(tensorAlignment) == room.Filled(tensorAlignment)
      {
        assert list[..i + 1] == list[..i] + [list[i]];
        assert list[i] in list;
        KeepsSharingAfter(tensors, aliases, list[..i], list[i]);
        status := AllocateTensor(list[i], floor, placed, left);
        left := if left.count > 0 then left.After(tensorAlignment) else left;
        if status.Error? {
          return;
        }
      }
      assert list[..|list|] == list;
      if old(RoomFor(room)) && |list| <= room.count {
        RoomToFill(left);
      }
    }

    lemma RoomToFill(room: Room)
      requires RoomFor(room)
      ensures RoomFor(room.Filled(tensorAlignment))
    {
      assert room.count * (tensorAlignment + room.largest) >= 0;
    }

    // ---- Temporaries

    // The last node of a call, as the C++ code computes it: last is compared after a cast
    // to size_t, so a negative one means every remaining node.
    function LastTemporaryNode(last: int): int
      reads this`graph
    {
      if last < 0 || last >= |graph.nodes| then |graph.nodes| - 1 else last
    }

    // Gives the temporaries of nodes first to last the lifetime of their node.
    method AssignTemporaries(first: int, last: int)
      requires Ready() && Grown() && 0 <= first
      requires forall i | 0 <= i < |graph.nodes| :: AllTensors(graph.nodes[i].temporaries, |tensors|)
      modifies this`allocNode, this`deallocNode, this`nodesToTensors
      ensures Ready() && Grown()
      ensures |nodesToTensors| == |old(nodesToTensors)|
      // Nothing but the temporaries of these nodes is touched.
      ensures forall x | 0 <= x < |tensors|
                         && (forall i | first <= i <= LastTemporaryNode(last) :: !UsesTemporary(graph, i, x)) ::
                allocNode[x] == old(allocNode[x]) && deallocNode[x] == old(deallocNode[x])
      ensures forall k | 0 <= k < |nodesToTensors| ::
                nodesToTensors[k] == old(nodesToTensors)[k]
                                     + (if first <= k <= LastTemporaryNode(last) then TemporariesOf(graph, k) else {})
      ensures TemporariesDisjoint(graph, |tensors|) ==>
                forall i, x | first <= i <= LastTemporaryNode(last) && UsesTemporary(graph, i, x) ::
                  && 0 <= x < |tensors| && allocNode[x] == i
                  && deallocNode[x] == if preserveAllTensors then old(deallocNode[x]) else i
      // A negative last node means all nodes, and one behind the last node as well.
      ensures forall i, x | first <= i < |graph.nodes| && (last < 0 || i <= last) && x in graph.nodes[i].temporaries ::
                i < |nodesToTensors| && x in nodesToTensors[i]
    {
      var i := first;
      while i <= LastTemporaryNode(last)
        invariant first <= i && (i <= LastTemporaryNode(last) + 1 || i == first)
        invariant Ready() && Grown() && |nodesToTensors| == |old(nodesToTensors)|
        invariant forall x | 0 <= x < |tensors| && (forall k | first <= k < i :: !UsesTemporary(graph, k, x)) ::
                    allocNode[x] == old(allocNode[x]) && deallocNode[x] == old(deallocNode[x])
        invariant forall k | 0 <= k < |nodesToTensors| ::
                    nodesToTensors[k] == old(nodesToTensors)[k]
                                         + (if first <= k < i then TemporariesOf(graph, k) else {})
        invariant TemporariesDisjoint(graph, |tensors|) ==>
                    forall k, x | first <= k < i && UsesTemporary(graph, k, x) ::
                      && 0 <= x < |tensors| && allocNode[x] == k
                      && deallocNode[x] == if preserveAllTensors then old(deallocNode[x]) else k
      {
        AssignTemporariesOf(i);
        i := i + 1;
      }
    }

    method AssignTemporariesOf(i: int)
      requires Ready() && Grown() && 0 <= i < |graph.nodes|
      requires AllTensors(graph.nodes[i].temporaries, |tensors|)
      modifies this`allocNode, this`deallocNode, this`nodesToTensors
      ensures Ready() && Grown()
      ensures |nodesToTensors| == |old(nodesToTensors)|
      ensures forall x | 0 <= x < |tensors| ::
                && allocNode[x] == (if UsesTemporary(graph, i, x) then i else old(allocNode[x]))
                && deallocNode[x] == if UsesTemporary(graph, i, x) && !preserveAllTensors then i else old(deallocNode[x])
      ensures nodesToTensors == old(nodesToTensors)[i := old(nodesToTensors)[i] + TemporariesOf(graph, i)]
    {
      hide Tidy, Flat, Arena.Valid;
      var temporaries := graph.nodes[i].temporaries;
      for j := 0 to |temporaries|
        invariant Grown() && |nodesToTensors| == |old(nodesToTensors)|
        invariant forall x | 0 <= x < |tensors| ::
                    && allocNode[x] == (if x in temporaries[..j] then i else old(allocNode[x]))
                    && deallocNode[x] == if x in temporaries[..j] && !preserveAllTensors then i else old(deallocNode[x])
        invariant forall k | 0 <= k < |nodesToTensors| && k != i :: nodesToTensors[k] == old(nodesToTensors)[k]
        invariant forall x :: x in nodesToTensors[i] <==> x in old(nodesToTensors)[i] || x in temporaries[..j]
      {
        assert temporaries[..j + 1] == temporaries[..j] + [temporaries[j]];
        var x := temporaries[j];
        allocNode := allocNode[x := i];
        nodesToTensors := nodesToTensors[i := nodesToTensors[i] + {x}];
        if !preserveAllTensors {
          deallocNode := deallocNode[x := i];
        }
      }
      assert temporaries[..|temporaries|] == temporaries;
      SameElements(nodesToTensors[i], old(nodesToTensors)[i] + TemporariesOf(graph, i));
    }

    // ---- Pointers

    // The tensor whose memory x points to.
    function PointerOwner(x: int): int
      reads this`actualTensorId, this`tensors
    {
      if x in actualTensorId && SameArena(tensors, actualTensorId[x], x) then actualTensorId[x] else x
    }

    // Where x ends up pointing if it has memory of its own and the block contains it.
    function OwnPointer(x: int, current: Pointer): Pointer
      requires 0 <= x < |tensors| && |allocs| == |tensors|
      reads this`tensors, this`allocs, arena, persistentArena
    {
      if tensors[x].allocationType == ArenaRw && allocs[x].size != 0 && arena.Resolvable(allocs[x]) then
        InArena(arena.base + allocs[x].offset)
      else if tensors[x].allocationType == ArenaRwPersistent && persistentArena.Resolvable(allocs[x]) then
        if allocs[x].size == 0 then Null else InPersistentArena(persistentArena.base + allocs[x].offset)
      else current
    }

    // x points to its owner's memory, and the owner to its own.
    ghost predicate Resolved(x: int)
      requires Ready() && Grown() && |data| == |tensors| && 0 <= x < |tensors|
      reads this, arena, persistentArena
    {
      var w := PointerOwner(x);
      data[x] == data[w] == OwnPointer(w, data[w])
    }

    // x points to the memory its owner has been given.
    ghost predicate PointsHome(x: int)
      requires |data| == |tensors| && 0 <= x < |tensors|
      reads this, arena, persistentArena
    {
      var w := PointerOwner(x);
      var record := RecordOf(allocs, w);
      && data[x] == data[w]
      && (tensors[w].allocationType == ArenaRw && record.size != 0 ==>
            data[w] == InArena(arena.base + record.offset))
      && (tensors[w].allocationType == ArenaRwPersistent ==>
            data[w] == if record.size == 0 then Null else InPersistentArena(persistentArena.base + record.offset))
    }

    // The committed blocks contain the memory of x.
    ghost predicate Backed(x: int)
      requires Grown() && 0 <= x < |tensors|
      reads this, arena, persistentArena
    {
      && (tensors[x].allocationType == ArenaRw && allocs[x].size != 0 ==> arena.Resolvable(allocs[x]))
      && (tensors[x].allocationType == ArenaRwPersistent ==> persistentArena.Resolvable(allocs[x]))
    }

    // All memory lies below the high-water marks.
    ghost predicate Covered()
      requires Grown()
      reads this, arena, persistentArena
    {
      forall x | 0 <= x < |tensors| ::
        && allocs[x].offset + allocs[x].size <= SIZE_MAX
        && (tensors[x].allocationType == ArenaRw && allocs[x].size != 0 && !Misplaced(x) ==>
              allocs[x].offset + allocs[x].size <= arena.highWaterMark)
        && (tensors[x].allocationType == ArenaRwPersistent ==>
              allocs[x].offset + allocs[x].size <= persistentArena.highWaterMark)
    }

    lemma PlacedIsCovered(floor: int)
      requires ArenasValid() && Grown() && Placed(floor)
      ensures Covered()
    {
      hide RecordsQueued, AllAligned;
      forall x | 0 <= x < |tensors|
        ensures allocs[x].InBounds() && (allocs[x].size == 0 ==> allocs[x].offset == 0)
      {
        assert allocs[x] in allocs;
      }
      assert forall x | 0 <= x < |tensors| && allocs[x].size != 0 ::
          Recorded(persistentRecords, allocs, x) || PersistentRecorded(persistentRecords, allocs, x);
    }

    // Once the blocks are large enough, a resolved tensor points to its memory.
    lemma ResolvedPointsHome(x: int)
      requires Ready() && Grown() && |data| == |tensors| && 0 <= x < |tensors|
      requires Covered() && arena.committed && arena.bufferSize >= arena.highWaterMark
      requires persistentArena.committed && persistentArena.bufferSize >= persistentArena.highWaterMark
      requires Resolved(x) && !Misplaced(PointerOwner(x))
      ensures PointsHome(x)
    {
      PointerOwnerIsFlat();
    }

    method ResolveTensorAllocation(x: int) returns (status: Status)
      requires Ready() && Grown() && |data| == |tensors| && 0 <= x < |tensors|
      modifies this`data
      decreases if x in actualTensorId then 1 else 0
      ensures |data| == |tensors|
      // A tensor that shares a buffer never fails to resolve.
      ensures PointerOwner(x) != x ==> status.Ok?
      ensures Backed(x) ==> status.Ok?
      ensures status.Ok? ==> Resolved(x)
      ensures data[PointerOwner(x)] == OwnPointer(PointerOwner(x), old(data)[PointerOwner(x)])
      // A tensor that shares a buffer in its own arena points where the owner does, any other to its
      // own memory; an empty persistent one to nothing, and what has no memory stays as it is.
      ensures if && x in actualTensorId && tensors[actualTensorId[x]].allocationType == tensors[x].allocationType
                 && (tensors[x].allocationType == ArenaRw || tensors[x].allocationType == ArenaRwPersistent)
              then data[x] == data[actualTensorId[x]]
              else status.Ok? ==>
                data[x] ==
                  if tensors[x].allocationType == ArenaRw && allocs[x].size != 0
                  then InArena(arena.base + allocs[x].offset)
                  else if tensors[x].allocationType == ArenaRwPersistent
                  then if allocs[x].size == 0 then Null else InPersistentArena(persistentArena.base + allocs[x].offset)
                  else old(data)[x]
      ensures forall y | 0 <= y < |tensors| && y != x && y != PointerOwner(x) :: data[y] == old(data)[y]
    {
      hide Tidy, Arena.Valid;
      var root := FindSharedTensor(actualTensorId, x);
      if root != x {
        if SameArena(tensors, root, x) {
          // The status of resolving the owner is dropped here.
          var ignored := ResolveTensorAllocation(root);
          data := data[x := data[root]];
          return Ok;
        }
      }
      if tensors[x].allocationType == ArenaRw {
        if allocs[x].size != 0 {
          var isNull, address;
          status, isNull, address := arena.ResolveAlloc(allocs[x]);
          if status.Ok? {
            data := data[x := InArena(address)];
          }
          return;
        }
      }
      if tensors[x].allocationType == ArenaRwPersistent {
        var isNull, address;
        status, isNull, address := persistentArena.ResolveAlloc(allocs[x]);
        if status.Ok? {
          data := data[x := if isNull then Null else InPersistentArena(address)];
        }
        return;
      }
      status := Ok;
    }

    lemma PointerOwnerIsFlat()
      requires Ready()
      ensures forall x | 0 <= x < |tensors| ::
                0 <= PointerOwner(x) < |tensors| && PointerOwner(PointerOwner(x)) == PointerOwner(x)
    {
    }

    // Resolving one tensor leaves resolved tensors resolved.
    method ResolveOne(x: int) returns (status: Status)
      requires Ready() && Grown() && |data| == |tensors| && 0 <= x < |tensors|
      modifies this`data
      ensures |data| == |tensors|
      ensures status.Ok? ==> Resolved(x)
      ensures Backed(x) ==> status.Ok?
      ensures forall y | 0 <= y < |tensors| && old(Resolved(y)) :: Resolved(y)
      ensures forall y | 0 <= y < |tensors| && old(PointsHome(y)) :: PointsHome(y)
    {
      hide PointerOwner, OwnPointer, SameArena, Tidy, Arena.Valid;
      status := ResolveTensorAllocation(x);
      PointerOwnerIsFlat();
      forall y | 0 <= y < |tensors| && old(PointsHome(y))
        ensures PointsHome(y)
      {
        if PointerOwner(y) == PointerOwner(x) {
          OwnPointerHome(PointerOwner(x), old(data)[PointerOwner(x)]);
        }
      }
      forall y | 0 <= y < |tensors| && old(Resolved(y))
        ensures Resolved(y)
      {
        OwnPointerFixed(PointerOwner(x), old(data)[PointerOwner(x)]);
      }
    }

    // Resolving a pointer that is right changes nothing.
    lemma OwnPointerHome(x: int, p: Pointer)
      requires 0 <= x < |tensors| && |allocs| == |tensors|
      requires tensors[x].allocationType == ArenaRw && allocs[x].size != 0 ==> p == InArena(arena.base + allocs[x].offset)
      requires tensors[x].allocationType == ArenaRwPersistent ==>
                 p == if allocs[x].size == 0 then Null else InPersistentArena(persistentArena.base + allocs[x].offset)
      ensures OwnPointer(x, p) == p
    {
    }

    lemma OwnPointerFixed(x: int, p: Pointer)
      requires 0 <= x < |tensors| && |allocs| == |tensors|
      ensures OwnPointer(x, OwnPointer(x, p)) == OwnPointer(x, p)
    {
    }

    method ResolveAll(list: seq<int>) returns (status: Status)
      requires Ready() && Grown() && |data| == |tensors| && AllTensors(list, |tensors|)
      modifies this`data
      ensures |data| == |tensors|
      ensures status.Ok? ==> forall x | x in list && 0 <= x < |tensors| :: Resolved(x)
      ensures (forall x | 0 <= x < |tensors| :: Backed(x)) ==> status.Ok?
      ensures forall x | 0 <= x < |tensors| && old(PointsHome(x)) :: PointsHome(x)
    {
      hide Resolved, PointsHome, PointerOwner, OwnPointer, SameArena;
      for i := 0 to |list|
        invariant |data| == |tensors|
        invariant forall x | x in list[..i] && 0 <= x < |tensors| :: Resolved(x)
        invariant forall x | 0 <= x < |tensors| && old(PointsHome(x)) :: PointsHome(x)
      {
        assert list[..i + 1] == list[..i] + [list[i]];
        status := ResolveOne(list[i]);
        if status.Error? {
          return;
        }
      }
      assert list[..|list|] == list;
      status := Ok;
    }

    // ---- Executing the plan

    // Grows the tables to the current number of tensors.
    method GrowTables()
      requires Ready()
      modifies this`allocs, this`allocNode, this`deallocNode
      ensures Ready() && Grown()
      ensures old(allocs) <= allocs && old(allocNode) <= allocNode && old(deallocNode) <= deallocNode
      ensures forall x | |old(allocs)| <= x < |tensors| :: allocs[x] == NO_ALLOC
      ensures forall x | |old(allocNode)| <= x < |tensors| :: allocNode[x] == deallocNode[x] == NOT_ASSIGNED
      ensures old(HoldsPlan()) ==> HoldsPlan()
      ensures forall floor :: old(Placed(floor)) ==> Placed(floor)
      ensures old(NothingPlaced()) ==> NothingPlaced()
      ensures forall room :: old(RoomFor(room)) ==> RoomFor(room)
    {
      hide WellFormed, InRange, PlanKept, QueuedAtFirstUse, TemporariesDisjoint, Spread, PersistentSpread, RecordsQueued;
      hide ArenaTensorsOnly, NothingMisplaced, EndsBelow, Tidy, Flat, Recorded, PersistentRecorded;
      ghost var allocNode0, deallocNode0, allocs0 := allocNode, deallocNode, allocs;
      allocNode := allocNode + seq(|tensors| - |allocNode|, _ => NOT_ASSIGNED);
      deallocNode := deallocNode + seq(|tensors| - |deallocNode|, _ => NOT_ASSIGNED);
      allocs := allocs + seq(|tensors| - |allocs|, _ => NO_ALLOC);
      if old(HoldsPlan()) {
        PlanKeptGrows(thePlan, actualTensorId, allocNode0, deallocNode0, allocNode, deallocNode, nodesToTensors);
        QueuesMatchGrows(nodesToTensors, allocNode0, allocNode);
      }
      SameRecords(persistentRecords, allocs0, allocs);
      SpreadInGrownTable(persistentRecords, allocs0, allocs, arena.activeAllocs, arena.highWaterMark,
                         persistentArena.activeAllocs, persistentArena.highWaterMark);
      TablesGrow(tensors, persistentRecords, allocs0, allocs, nodesToTensors, arena.activeAllocs,
                 persistentArena.activeAllocs, tensorAlignment);
    }

    // x is a temporary of one of the nodes of a call.
    ghost predicate TemporaryOf(x: int, first: int, last: int)
      reads this`graph
    {
      exists i :: first <= i <= LastTemporaryNode(last) && UsesTemporary(graph, i, x)
    }

    // Makes room for the temporaries of nodes first to last; the plan stays what it was.
    method PrepareTemporaries(first: int, last: int)
      requires Ready() && Grown() && 0 <= first
      requires forall i | 0 <= i < |graph.nodes| :: AllTensors(graph.nodes[i].temporaries, |tensors|)
      modifies this`allocNode, this`deallocNode, this`nodesToTensors
      ensures Ready() && Grown() && |nodesToTensors| == |old(nodesToTensors)|
      ensures forall k | 0 <= k < |nodesToTensors| ::
                nodesToTensors[k] == old(nodesToTensors)[k]
                                     + (if first <= k <= LastTemporaryNode(last) then TemporariesOf(graph, k) else {})
      ensures old(HoldsPlan()) ==> HoldsPlan()
      ensures forall floor :: old(Placed(floor)) ==> Placed(floor)
      ensures old(HoldsPlan()) ==> forall i, x | first <= i <= LastTemporaryNode(last) && UsesTemporary(graph, i, x) ::
                0 <= x < |tensors| && allocNode[x] == i
                && deallocNode[x] == if preserveAllTensors then NOT_ASSIGNED else i
      ensures forall x | 0 <= x < |tensors| && !TemporaryOf(x, first, last) :: deallocNode[x] == old(deallocNode)[x]
    {
      ghost var allocNode0, deallocNode0, queues0 := allocNode, deallocNode, nodesToTensors;
      AssignTemporaries(first, last);
      assert RecordsQueued(allocs, queues0) ==> RecordsQueued(allocs, nodesToTensors);
      if old(HoldsPlan()) {
        PlanKeptWithTemporaries(thePlan, actualTensorId, allocNode0, deallocNode0, queues0, allocNode, deallocNode,
                                nodesToTensors, first, LastTemporaryNode(last), |tensors|);
      }
    }

    // The memory record of x before the tables were grown.
    static function RecordOf(records: seq<Alloc>, x: int): Alloc {
      if 0 <= x < |records| then records[x] else NO_ALLOC
    }

    // The tables as a call of ExecuteAllocations finds them: grown, and with the
    // temporaries of its nodes.
    method PrepareTables(first: int, last: int)
      requires Ready() && 0 <= first
      requires forall i | 0 <= i < |graph.nodes| :: AllTensors(graph.nodes[i].temporaries, |tensors|)
      modifies this`allocs, this`allocNode, this`deallocNode, this`nodesToTensors
      ensures Ready() && Grown() && |nodesToTensors| == |old(nodesToTensors)|
      ensures forall k | 0 <= k < |nodesToTensors| :: old(nodesToTensors)[k] <= nodesToTensors[k]
      ensures old(InSequence(first, last)) ==> InSequence(first, last)
      ensures old(InSequence(first, last)) ==> TemporariesPrepared(first, last)
      ensures forall x | 0 <= x < |tensors| :: allocs[x] == RecordOf(old(allocs), x)
      ensures forall room :: old(RoomFor(room)) ==> RoomFor(room)
      ensures forall x | 0 <= x < |old(deallocNode)| && !TemporaryOf(x, first, last) ::
                deallocNode[x] == old(deallocNode)[x]
    {
      hide Spread, PersistentSpread, RecordsQueued, PlanKept, QueuedAtFirstUse, TemporariesDisjoint;
      GrowTables();
      PrepareTemporaries(first, last);
    }

    ghost predicate TemporariesPrepared(first: int, last: int)
      reads this
    {
      forall i, x | first <= i <= LastTemporaryNode(last) && UsesTemporary(graph, i, x) ::
        && 0 <= x < |allocNode| && 0 <= i < |nodesToTensors| && |allocNode| == |deallocNode|
        && allocNode[x] == i && i <= deallocNode[x] && x in nodesToTensors[i]
    }

    // x is queued in the range and needed memory.
    ghost predicate DealtWith(x: int, first: int, last: int, records: seq<Alloc>)
      reads this`nodesToTensors, this`tensors
    {
      Queued(nodesToTensors, x, first, last) && 0 <= x < |tensors| && NeedsMemory(tensors[x], RecordOf(records, x))
    }

    // The planning half of ExecuteAllocations.
    method PlaceTensors(first: int, last: int, ghost room: Room) returns (status: Status, placed: seq<int>)
      requires Ready() && 0 <= first && last < |nodesToTensors|
      requires forall i | 0 <= i < |graph.nodes| :: AllTensors(graph.nodes[i].temporaries, |tensors|)
      modifies this`allocs, this`allocNode, this`deallocNode, this`nodesToTensors, this`actualTensorId,
               this`persistentRecords, this`lastActiveNode, arena, persistentArena
      ensures SameBuffers(old(Buffers()))
      ensures status.Ok? ==> Ready() && Grown() && lastActiveNode == last && |nodesToTensors| == |old(nodesToTensors)|
      ensures status.Ok? ==> forall k | 0 <= k < |nodesToTensors| :: old(nodesToTensors)[k] <= nodesToTensors[k]
      ensures status.Ok? && old(InSequence(first, last)) ==>
                HoldsPlan() && Placed(last) && TemporariesPrepared(first, last)
      ensures status.Ok? ==> forall x :: x in placed <==> DealtWith(x, first, last, old(allocs))
      ensures status.Ok? ==> actualTensorId == AliasesAfter(tensors, old(actualTensorId), placed)
      ensures status.Ok? && |data| == |tensors| ==> forall x | 0 <= x < |tensors| && old(PointsHome(x)) ::
                PointsHome(x) || x in placed || old(PointerOwner(x)) in placed
      ensures status.Ok? ==> forall x | 0 <= x < |tensors| ::
                if x in placed
                then Settled(tensors, allocNode, deallocNode, x, old(actualTensorId), old(HoldingAt(x)), HoldingAt(x))
                else HoldingAt(x) == old(HoldingAt(x))
      ensures |old(deallocNode)| <= |deallocNode|
      ensures old(InSequence(first, last)) ==> QueuesMatch() && |allocNode| == |tensors|
      ensures forall x | 0 <= x < |old(deallocNode)| && !TemporaryOf(x, first, last) ::
                deallocNode[x] == old(deallocNode)[x]
      ensures old(RoomFor(room)) && QueueLength(nodesToTensors, first, last) <= room.count ==>
                status.Ok? && RoomFor(room.Filled(tensorAlignment))
    {
      hide Spread, PersistentSpread, RecordsQueued, PlanKept, Settled, NeedsMemory, KeepsSharing, QueuedAtFirstUse;
      hide TemporariesDisjoint, NothingMisplaced, ArenaTensorsOnly, EndsBelow, Tidy;
      ghost var inSequence := InSequence(first, last);
      ghost var aliases0 := actualTensorId;
      PrepareTables(first, last);
      assert inSequence ==> QueuedAtFirstUse(nodesToTensors, allocNode);
      status, placed := CalculateAllocations(first, last, inSequence, room);
      if status.Ok? && inSequence {
        DroppingAliasesKeepsPlan(thePlan, aliases0, actualTensorId, allocNode, deallocNode, nodesToTensors);
      }
    }

    // Reserves the memory the offsets need.
    method Commit(grant: Grant) returns (status: Status, moved: bool)
      requires Ready() && Grown() && |data| == |tensors|
      modifies arena`committed, arena`bufferSize, arena`base,
               persistentArena`committed, persistentArena`bufferSize, persistentArena`base
      ensures Ready()
      ensures status.Ok? ==> && arena.committed && arena.bufferSize >= arena.highWaterMark
                             && persistentArena.committed && persistentArena.bufferSize >= persistentArena.highWaterMark
      ensures arena.base != old(arena.base) || persistentArena.base != old(persistentArena.base) ==>
                moved || status.Error?
      // What points to its memory still does, unless the memory has moved.
      ensures arena.base == old(arena.base) && persistentArena.base == old(persistentArena.base) ==>
                forall x | 0 <= x < |tensors| && old(PointsHome(x)) :: PointsHome(x)
      ensures grant.granted && grant.persistentGranted ==> status.Ok?
    {
      hide Tidy;
      var persistentMoved;
      status, moved := arena.Commit(grant.granted, grant.newBase);
      if status.Ok? {
        status, persistentMoved := persistentArena.Commit(grant.persistentGranted, grant.persistentBase);
        moved := moved || persistentMoved;
      }
    }

    // Points the tensors at their memory.
    method CommitAndResolve(placed: seq<int>, grant: Grant) returns (status: Status)
      requires Ready() && Grown() && |data| == |tensors| && AllTensors(placed, |tensors|)
      modifies this`data, arena`committed, arena`bufferSize, arena`base,
               persistentArena`committed, persistentArena`bufferSize, persistentArena`base
      ensures Ready() && Grown() && |data| == |tensors|
      ensures status.Ok? ==> && arena.committed && arena.bufferSize >= arena.highWaterMark
                             && persistentArena.committed && persistentArena.bufferSize >= persistentArena.highWaterMark
      ensures status.Ok? ==> forall x | x in placed && 0 <= x < |tensors| :: Resolved(x)
      // If a block has moved, every tensor is resolved afresh.
      ensures status.Ok? && (arena.base != old(arena.base) || persistentArena.base != old(persistentArena.base)) ==>
                forall x | 0 <= x < |tensors| :: Resolved(x)
      // Otherwise what pointed to its memory still does.
      ensures arena.base == old(arena.base) && persistentArena.base == old(persistentArena.base) ==>
                forall x | 0 <= x < |tensors| && old(PointsHome(x)) :: PointsHome(x)
      ensures && Covered() && NothingMisplaced(tensors, persistentRecords, allocs)
              && grant.granted && grant.persistentGranted
              ==> status.Ok?
    {
      var moved;
      status, moved := Commit(grant);
      if status.Error? {
        return;
      }
      assert Covered() && NothingMisplaced(tensors, persistentRecords, allocs) ==>
          forall x | 0 <= x < |tensors| :: Backed(x);
      hide Covered, Backed, Resolved, PointsHome, OwnPointer, PointerOwner, SameArena, Tidy;
      if moved {
        var all := seq(|tensors|, i => i);
        forall x | 0 <= x < |tensors|
          ensures x in all
        {
          assert all[x] == x;
        }
        status := ResolveAll(all);
      } else {
        status := ResolveAll(placed);
      }
    }

    // Allocates and resolves the tensors of nodes first to last.
    method ExecuteAllocations(first: int, last: int, grant: Grant, ghost room: Room) returns (status: Status)
      requires |allocs| <= |tensors| ==> Ready()
      requires |data| == |tensors| && 0 <= first && last < |nodesToTensors|
      requires forall i | 0 <= i < |graph.nodes| :: AllTensors(graph.nodes[i].temporaries, |tensors|)
      modifies this`allocs, this`allocNode, this`deallocNode, this`nodesToTensors, this`actualTensorId,
               this`persistentRecords, this`lastActiveNode, this`data, arena, persistentArena
      ensures |data| == |tensors|
      ensures status.Ok? ==> Ready() && Grown() && lastActiveNode == last && |nodesToTensors| == |old(nodesToTensors)|
      ensures status.Ok? ==> forall k | 0 <= k < |nodesToTensors| :: old(nodesToTensors)[k] <= nodesToTensors[k]
      // Called in sequence, it keeps the plan and the arena invariant.
      ensures status.Ok? && old(InSequence(first, last)) ==>
                HoldsPlan() && Placed(last) && TemporariesPrepared(first, last)
      // Only the temporaries of its nodes are given another release node.
      ensures status.Ok? ==> forall x | 0 <= x < |old(deallocNode)| && !TemporaryOf(x, first, last) ::
                x < |deallocNode| && deallocNode[x] == old(deallocNode)[x]
      // An alias is only ever dropped, and only by the tensor that needed memory.
      ensures status.Ok? ==> forall x :: x in actualTensorId <==>
                x in old(actualTensorId)
                && (KeepsSharing(tensors, old(actualTensorId), x) || !DealtWith(x, first, last, old(allocs)))
      ensures status.Ok? ==> forall x | x in actualTensorId :: actualTensorId[x] == old(actualTensorId)[x]
      // Sharing or memory of its own, never both; everything else keeps its record.
      ensures status.Ok? ==> forall x | 0 <= x < |tensors| ::
                if DealtWith(x, first, last, old(allocs))
                then Settled(tensors, allocNode, deallocNode, x, old(actualTensorId), old(HoldingAt(x)), HoldingAt(x))
                     && Resolved(x)
                else HoldingAt(x) == old(HoldingAt(x))
      // The blocks are large enough; if one has moved, every pointer is renewed.
      ensures status.Ok? ==> && arena.committed && arena.bufferSize >= arena.highWaterMark
                             && persistentArena.committed && persistentArena.bufferSize >= persistentArena.highWaterMark
      ensures status.Ok? && (arena.base != old(arena.base) || persistentArena.base != old(persistentArena.base)) ==>
                forall x | 0 <= x < |tensors| :: Resolved(x)
      // Otherwise tensors that nothing has happened to still point to their memory.
      ensures status.Ok? && arena.base == old(arena.base) && persistentArena.base == old(persistentArena.base) ==>
                forall x | 0 <= x < |tensors| && old(PointsHome(x)) ::
                  || PointsHome(x) || DealtWith(x, first, last, old(allocs))
                  || DealtWith(old(PointerOwner(x)), first, last, old(allocs))
      // In sequence it succeeds, unless sizes can overflow or memory is refused.
      ensures |old(allocs)| <= |tensors| && old(InSequence(first, last)) ==>
                QueueLength(nodesToTensors, first, last) <= |tensors|
      ensures && |old(allocs)| <= |tensors| && old(InSequence(first, last)) && old(RoomFor(room))
              && QueueLength(nodesToTensors, first, last) <= room.count && grant.granted && grant.persistentGranted
              ==> status.Ok? && RoomFor(room.Filled(tensorAlignment))
    {
      hide Settled, Spread, PersistentSpread, RecordsQueued, PlanKept, NeedsMemory, KeepsSharing, Queued, Tidy, EndsBelow;
      hide QueuedAtFirstUse, TemporariesDisjoint, Resolved, PointsHome, PointerOwner, NothingMisplaced, ArenaTensorsOnly;
      if |tensors| < |allocs| {
        return Error;
      }
      var placed;
      status, placed := PlaceTensors(first, last, room);
      if old(InSequence(first, last)) {
        QueueLengthBelow(nodesToTensors, allocNode, first, last);
      }
      if status.Error? {
        return;
      }
      assert forall j | 0 <= j < |placed| :: placed[j] in placed;
      if old(InSequence(first, last)) {
        PlacedIsCovered(last);
      }
      status := CommitAndResolve(placed, grant);
    }

    // Erases the records of arena tensors first used after the given node.
    method EraseRecordsAfter(node: int)
      requires (forall a | a in allocs :: a.InBounds()) && |allocs| <= |tensors| == |data|
      modifies this`allocs, this`data
      ensures (forall a | a in allocs :: a.InBounds())
      ensures |allocs| == |old(allocs)| && |data| == |tensors|
      ensures forall x | 0 <= x < |allocs| ::
                if tensors[x].allocationType == ArenaRw && old(allocs)[x].size > 0 && node < old(allocs)[x].firstNode
                then allocs[x] == NO_ALLOC && data[x] == Null
                else allocs[x] == old(allocs)[x] && data[x] == old(data)[x]
      ensures forall x | |allocs| <= x < |data| :: data[x] == old(data)[x]
    {
      for i := 0 to |allocs|
        invariant |allocs| == |old(allocs)| && |data| == |tensors|
        invariant forall x | 0 <= x < |allocs| ::
                    if x < i && Erased(tensors, old(allocs), x, node) then allocs[x] == NO_ALLOC && data[x] == Null
                    else allocs[x] == old(allocs)[x] && data[x] == old(data)[x]
        invariant forall x | |allocs| <= x < |data| :: data[x] == old(data)[x]
      {
        if allocs[i].firstNode > node && allocs[i].size > 0 {
          if tensors[i].allocationType == ArenaRw {
            allocs := allocs[i := NO_ALLOC];
            data := data[i := Null];
          }
        }
      }
      forall a | a in allocs
        ensures a.InBounds()
      {
        var j :| 0 <= j < |allocs| && allocs[j] == a;
        assert old(allocs)[j] in old(allocs);
      }
    }

    // Forgets the arena memory of everything first used after the given node.
    method ResetAllocationsAfter(node: int)
      requires ArenasValid() && |allocs| <= |tensors| == |data|
      modifies this`allocs, this`data, this`lastActiveNode, arena`activeAllocs
      ensures ArenasValid() && |allocs| == |old(allocs)| && |data| == |tensors| && lastActiveNode == node
      ensures forall x | 0 <= x < |allocs| ::
                if Erased(tensors, old(allocs), x, node) then allocs[x] == NO_ALLOC && data[x] == Null
                else allocs[x] == old(allocs)[x] && data[x] == old(data)[x]
      ensures forall x | |allocs| <= x < |data| :: data[x] == old(data)[x]
      // The arena invariant holds from the node on, without its earlier history.
      ensures old(Placed(lastActiveNode)) ==> Placed(node)
      ensures forall room :: old(RoomFor(room)) ==> RoomFor(room)
    {
      hide Spread, PersistentSpread, RecordsQueued, Recorded, PersistentRecorded, SortedByOffset;
      EraseRecordsAfter(node);
      if lastActiveNode > node {
        arena.CalculateActiveAllocs(allocs, node);
      } else {
        arena.PurgeAfter(node);
      }
      ShrunkTable(tensors, persistentRecords, old(allocs), allocs);
      if old(Placed(lastActiveNode)) {
        NoneLeftAfter(tensors, persistentRecords, old(allocs), allocs, node);
        SpreadAfterReset(persistentRecords, old(allocs), old(arena.activeAllocs), arena.highWaterMark, lastActiveNode,
                         allocs, arena.activeAllocs, node);
        RecordsAfterReset(persistentRecords, old(allocs), persistentArena.activeAllocs, persistentArena.highWaterMark,
                          nodesToTensors, allocs);
      }
      lastActiveNode := node;
    }
  }
}
