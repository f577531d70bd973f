/**
  The view of a TensorFlow Lite graph that memory planning works on: tensor
  metadata, execution nodes with their in-place flags, and the graph-level lists
  of inputs, outputs and variables.
 */
module TfLiteGraph {
  const OPTIONAL_TENSOR: int := -1
  const NOT_ASSIGNED: int := 0x7FFF_FFFF
  const SCALAR_TENSOR_BYTES: nat := 4
  const MAX_SHARABLE_OP_INPUTS: nat := 3

  datatype AllocationType =
    | MemNone | MmapRo | ArenaRw | ArenaRwPersistent | Dynamic
    | PersistentRo | Custom | VariantObject | NonCpu

  datatype Tensor = Tensor(bytes: nat, allocationType: AllocationType)

  // The bits of TfLiteRegistration::inplace_operator.
  datatype InplaceOp = InplaceOp(dataUnmodified: bool, correspondingOutput: bool,
                                 input0Shared: bool, input1Shared: bool, input2Shared: bool) {
    predicate InputShared(j: nat) {
      (j == 0 && input0Shared) || (j == 1 && input1Shared) || (j == 2 && input2Shared)
    }
  }

  const INPLACE_NONE := InplaceOp(false, false, false, false, false)

  datatype Node = Node(inputs: seq<int>, outputs: seq<int>, temporaries: seq<int>, inplace: InplaceOp)

  // Nodes are listed in execution-plan order.
  datatype Graph = Graph(nodes: seq<Node>, inputs: seq<int>, outputs: seq<int>, variables: seq<int>)

  predicate IsTensorOrOptional(x: int, numTensors: nat) {
    x == OPTIONAL_TENSOR || 0 <= x < numTensors
  }

  predicate AllTensorsOrOptional(s: seq<int>, numTensors: nat) {
    forall j | 0 <= j < |s| :: IsTensorOrOptional(s[j], numTensors)
  }

  predicate NodeInRange(node: Node, numTensors: nat) {
    && AllTensorsOrOptional(node.inputs, numTensors)
    && AllTensorsOrOptional(node.outputs, numTensors)
    // The planner indexes the tensor table with the first output of an in-place op.
    && (node.inplace != INPLACE_NONE && node.outputs != [] ==> node.outputs[0] != OPTIONAL_TENSOR)
  }

  // Every index the planner dereferences exists; node indices fit in int32_t.
  ghost predicate InRange(g: Graph, numTensors: nat) {
    && |g.nodes| < NOT_ASSIGNED
    && (forall i | 0 <= i < |g.nodes| :: NodeInRange(g.nodes[i], numTensors))
    && AllTensorsOrOptional(g.inputs, numTensors)
    && AllTensorsOrOptional(g.outputs, numTensors)
    && (forall j | 0 <= j < |g.variables| :: 0 <= g.variables[j] < numTensors)
  }

  ghost predicate Reads(g: Graph, i: int, x: int) {
    0 <= i < |g.nodes| && x != OPTIONAL_TENSOR && x in g.nodes[i].inputs
  }

  ghost predicate Writes(g: Graph, i: int, x: int) {
    0 <= i < |g.nodes| && x != OPTIONAL_TENSOR && x in g.nodes[i].outputs
  }

  ghost predicate UsesTemporary(g: Graph, i: int, x: int) {
    0 <= i < |g.nodes| && x in g.nodes[i].temporaries
  }

  function TemporariesOf(g: Graph, i: int): set<int> {
    if 0 <= i < |g.nodes| then set x | x in g.nodes[i].temporaries else {}
  }

  // No node from i on produces x.
  ghost predicate Available(g: Graph, x: int, i: int) {
    forall k | i <= k :: !Writes(g, k, x)
  }

  ghost predicate ReadFrom(g: Graph, x: int, i: int) {
    exists k :: i <= k && Reads(g, k, x)
  }

  // x has its value before node i and that value is still wanted.
  ghost predicate Live(g: Graph, x: int, i: int) {
    Available(g, x, i) && x != OPTIONAL_TENSOR && (ReadFrom(g, x, i) || x in g.outputs)
  }

  ghost predicate Pinned(g: Graph, x: int) {
    x in g.inputs || x in g.outputs || x in g.variables
  }

  ghost predicate DistinctPositions(s: seq<int>) {
    forall j, k | 0 <= j < k < |s| && s[j] != OPTIONAL_TENSOR :: s[j] != s[k]
  }

  // Nodes come in dependency order and every tensor has at most one producer,
  // which is not a graph input or a variable.
  ghost predicate WellFormed(g: Graph) {
    && (forall i, x | Writes(g, i, x) :: x !in g.inputs && x !in g.variables)
    && (forall i, k, x | Writes(g, i, x) && Writes(g, k, x) :: i == k)
    && (forall i, k, x | Writes(g, i, x) && Reads(g, k, x) :: i < k)
    && (forall i | 0 <= i < |g.nodes| :: DistinctPositions(g.nodes[i].outputs))
  }

  // The scratch tensors of a node belong to that node alone.
  ghost predicate TemporariesDisjoint(g: Graph, numTensors: nat) {
    && (forall i, x | UsesTemporary(g, i, x) :: 0 <= x < numTensors)
    && (forall i, k, x | UsesTemporary(g, i, x) && UsesTemporary(g, k, x) :: i == k)
    && (forall i, k, x | UsesTemporary(g, i, x) :: !Writes(g, k, x))
    && (forall i, k, x | UsesTemporary(g, i, x) :: !Reads(g, k, x))
    && (forall i, x | UsesTemporary(g, i, x) :: !Pinned(g, x))
    && (forall i | 0 <= i < |g.nodes| :: DistinctPositions(g.nodes[i].temporaries))
  }

  // Occurrences of x in the first j entries of s.
  function CountTo(s: seq<int>, j: nat, x: int): nat
    requires j <= |s|
  {
    if j == 0 then 0 else CountTo(s, j - 1, x) + (if s[j - 1] == x then 1 else 0)
  }

  function Count(s: seq<int>, x: int): nat { CountTo(s, |s|, x) }

  lemma {:induction false} CountToIsMultiplicity(s: seq<int>, j: nat, x: int)
    requires j <= |s|
    ensures CountTo(s, j, x) == multiset(s[..j])[x]
  {
    if j > 0 {
      CountToIsMultiplicity(s, j - 1, x);
      assert s[..j] == s[..j - 1] + [s[j - 1]];
    }
  }

  lemma CountIsMultiplicity(s: seq<int>, x: int)
    ensures Count(s, x) == multiset(s)[x]
  {
    CountToIsMultiplicity(s, |s|, x);
    assert s[..|s|] == s;
  }

  // Occurrences of x among the inputs of the first i nodes.
  function ReadCount(g: Graph, i: nat, x: int): nat
    requires i <= |g.nodes|
  {
    if i == 0 then 0 else ReadCount(g, i - 1, x) + Count(g.nodes[i - 1].inputs, x)
  }

  // The artificial references that keep graph inputs, outputs and variables alive.
  function PinCount(g: Graph, x: int): nat {
    Count(g.outputs, x) + Count(g.variables, x) + Count(g.inputs, x)
  }

  function RefCount(g: Graph, x: int): nat { PinCount(g, x) + ReadCount(g, |g.nodes|, x) }

  lemma {:induction false} CountToPositive(s: seq<int>, j: nat, x: int)
    requires j <= |s|
    ensures CountTo(s, j, x) > 0 <==> x in s[..j]
  {
    if j > 0 {
      CountToPositive(s, j - 1, x);
      assert s[..j] == s[..j - 1] + [s[j - 1]];
    }
  }

  lemma CountPositive(s: seq<int>, x: int)
    ensures Count(s, x) > 0 <==> x in s
  {
    CountToPositive(s, |s|, x);
    assert s[..|s|] == s;
  }

  lemma PinnedIffCounted(g: Graph, x: int)
    ensures PinCount(g, x) > 0 <==> Pinned(g, x)
  {
    CountPositive(g.outputs, x);
    CountPositive(g.variables, x);
    CountPositive(g.inputs, x);
  }

  lemma {:induction false} ReadCountMonotone(g: Graph, i: nat, k: nat, x: int)
    requires i <= k <= |g.nodes|
    ensures ReadCount(g, i, x) <= ReadCount(g, k, x)
    decreases k - i
  {
    if i < k {
      ReadCountMonotone(g, i, k - 1, x);
    }
  }

  // A tensor with at most one reference has at most one reader and is not pinned
  // once it has that reader.
  lemma SingleReference(g: Graph, x: int, i: int)
    requires RefCount(g, x) <= 1 && Reads(g, i, x)
    ensures forall k | Reads(g, k, x) :: k == i
    ensures !Pinned(g, x)
  {
    var n := |g.nodes|;
    CountPositive(g.nodes[i].inputs, x);
    ReadCountMonotone(g, i + 1, n, x);
    PinnedIffCounted(g, x);
    forall k | Reads(g, k, x)
      ensures k == i
    {
      CountPositive(g.nodes[k].inputs, x);
      ReadCountMonotone(g, k + 1, n, x);
      if k < i {
        ReadCountMonotone(g, k + 1, i, x);
      } else if i < k {
        ReadCountMonotone(g, i + 1, k, x);
      }
    }
  }

  lemma VariablesInRange(g: Graph, numTensors: nat)
    requires InRange(g, numTensors)
    ensures AllTensorsOrOptional(g.variables, numTensors)
  {
  }
}
