/**
  Which tensors the arena planner lets share a buffer (IdentifyInPlaceTensors),
  and why that is safe: the alias map is flat, and a node that overwrites a shared
  buffer never destroys a value that is still wanted.
 */
module InPlaceSharing {
  import opened TfLiteGraph

  datatype Plan = Plan(graph: Graph, tensors: seq<Tensor>, preserveAll: bool) {
    ghost predicate Valid() { InRange(graph, |tensors|) }
  }

  // From a tensor to the tensor that owns its buffer.
  type AliasMap = map<int, int>

  function FindSharedTensor(m: AliasMap, x: int): int {
    if x in m then m[x] else x
  }

  predicate InputTensorCanBeShared(p: Plan, inputId: int, outputId: int, tensorChanged: bool)
    requires 0 <= inputId < |p.tensors| && 0 <= outputId < |p.tensors|
  {
    var input, output := p.tensors[inputId], p.tensors[outputId];
    && (tensorChanged ==>
          && input.bytes == output.bytes
          && input.bytes > SCALAR_TENSOR_BYTES
          && RefCount(p.graph, inputId) <= 1)
    && inputId !in p.graph.inputs
    && outputId !in p.graph.outputs
    && (input.allocationType == output.allocationType || input.allocationType == ArenaRw)
    && !p.preserveAll
  }

  // Position of the first input, from position j on, that node i may share; -1 if none.
  function ShareableInputFrom(p: Plan, i: nat, j: nat): (slot: int)
    requires p.Valid() && i < |p.graph.nodes| && p.graph.nodes[i].outputs != []
    requires p.graph.nodes[i].inplace != INPLACE_NONE
    ensures slot == -1 || j <= slot < |p.graph.nodes[i].inputs|
    ensures slot != -1 ==> p.graph.nodes[i].inputs[slot] != OPTIONAL_TENSOR
    ensures slot != -1 ==>
              InputTensorCanBeShared(p, p.graph.nodes[i].inputs[slot], p.graph.nodes[i].outputs[0],
                                     !p.graph.nodes[i].inplace.dataUnmodified)
    decreases MAX_SHARABLE_OP_INPUTS - j
  {
    var node := p.graph.nodes[i];
    if j >= MAX_SHARABLE_OP_INPUTS || j >= |node.inputs| then -1
    else if && node.inputs[j] != OPTIONAL_TENSOR
            && node.inplace.InputShared(j)
            && InputTensorCanBeShared(p, node.inputs[j], node.outputs[0], !node.inplace.dataUnmodified)
    then j
    else ShareableInputFrom(p, i, j + 1)
  }

  // Position of the input that node i would share with its first output, before the
  // references of the buffer's owner are looked at.
  function CandidateSlot(p: Plan, i: nat): (slot: int)
    requires p.Valid() && i < |p.graph.nodes|
    ensures slot == -1 || 0 <= slot < |p.graph.nodes[i].inputs|
  {
    var node := p.graph.nodes[i];
    if node.outputs == [] || node.inplace == INPLACE_NONE then -1 else ShareableInputFrom(p, i, 0)
  }

  // The alias map after the first i nodes have been looked at.
  function AliasesUpTo(p: Plan, i: nat): AliasMap
    requires p.Valid() && i <= |p.graph.nodes|
  {
    if i == 0 then map[] else
    var m := AliasesUpTo(p, i - 1);
    var node := p.graph.nodes[i - 1];
    var slot := CandidateSlot(p, i - 1);
    if slot == -1 then m else
    var root := FindSharedTensor(m, node.inputs[slot]);
    if !node.inplace.dataUnmodified && RefCount(p.graph, root) > 1 then m
    else m[node.outputs[0] := root]
  }

  function Aliases(p: Plan): AliasMap
    requires p.Valid()
  {
    AliasesUpTo(p, |p.graph.nodes|)
  }

  function SharedInput(p: Plan, i: int): int
    requires p.Valid() && 0 <= i < |p.graph.nodes| && CandidateSlot(p, i) != -1
  {
    p.graph.nodes[i].inputs[CandidateSlot(p, i)]
  }

  // Under alias map m, node i keeps its first output in the buffer of its shared input.
  ghost predicate SharesAt(p: Plan, m: AliasMap, i: int)
    requires p.Valid()
  {
    0 <= i < |p.graph.nodes| && CandidateSlot(p, i) != -1 && p.graph.nodes[i].outputs[0] in m
  }

  // ... and may change the bytes of that buffer.
  ghost predicate OverwritesAt(p: Plan, m: AliasMap, i: int)
    requires p.Valid()
  {
    SharesAt(p, m, i) && !p.graph.nodes[i].inplace.dataUnmodified
  }

  // ... or only ever copies the buffer onto itself.
  ghost predicate PassesThroughAt(p: Plan, m: AliasMap, i: int)
    requires p.Valid()
  {
    SharesAt(p, m, i) && p.graph.nodes[i].inplace.dataUnmodified
  }

  // How node k made o an alias: o shares the buffer of an input that already had its
  // value, is younger than the buffer's owner, and is no graph output.
  ghost predicate MadeBy(p: Plan, m: AliasMap, o: int, k: int)
    requires p.Valid()
  {
    && SharesAt(p, m, k)
    && o == p.graph.nodes[k].outputs[0]
    && Writes(p.graph, k, o)
    && o !in p.graph.outputs
    && m[o] == FindSharedTensor(m, SharedInput(p, k))
    && Reads(p.graph, k, SharedInput(p, k))
    && Available(p.graph, SharedInput(p, k), k)
    && Available(p.graph, m[o], k)
    && (OverwritesAt(p, m, k) ==>
          RefCount(p.graph, SharedInput(p, k)) <= 1 && RefCount(p.graph, m[o]) <= 1)
  }

  ghost predicate Flat(m: AliasMap) {
    forall o | o in m :: m[o] !in m
  }

  ghost predicate SoundAliases(p: Plan, m: AliasMap)
    requires p.Valid()
  {
    Flat(m) && forall o | o in m :: exists k :: MadeBy(p, m, o, k)
  }

  ghost predicate ProducedBefore(g: Graph, m: AliasMap, k: nat) {
    forall o | o in m :: exists k' :: k' < k && Writes(g, k', o)
  }

  lemma CandidateIsShareable(p: Plan, i: nat)
    requires p.Valid() && i < |p.graph.nodes| && CandidateSlot(p, i) != -1
    ensures var node := p.graph.nodes[i];
      && node.outputs != [] && Writes(p.graph, i, node.outputs[0])
      && node.outputs[0] !in p.graph.outputs
      && Reads(p.graph, i, SharedInput(p, i))
      && SharedInput(p, i) !in p.graph.inputs
      && (!node.inplace.dataUnmodified ==> RefCount(p.graph, SharedInput(p, i)) <= 1)
  {
  }

  lemma {:induction false} AliasesUpToSound(p: Plan, i: nat)
    requires p.Valid() && WellFormed(p.graph) && i <= |p.graph.nodes|
    ensures SoundAliases(p, AliasesUpTo(p, i))
    ensures ProducedBefore(p.graph, AliasesUpTo(p, i), i)
  {
    if i > 0 {
      AliasesUpToSound(p, i - 1);
      AliasStepSound(p, i - 1);
    }
  }

  lemma AliasStepSound(p: Plan, k: nat)
    requires p.Valid() && WellFormed(p.graph) && k < |p.graph.nodes|
    requires SoundAliases(p, AliasesUpTo(p, k))
    requires ProducedBefore(p.graph, AliasesUpTo(p, k), k)
    ensures SoundAliases(p, AliasesUpTo(p, k + 1))
    ensures ProducedBefore(p.graph, AliasesUpTo(p, k + 1), k + 1)
  {
    var m, m' := AliasesUpTo(p, k), AliasesUpTo(p, k + 1);
    if m' != m {
      CandidateIsShareable(p, k);
      AddAliasSound(p, m, k);
      assert Writes(p.graph, k, p.graph.nodes[k].outputs[0]);
    }
    forall o | o in m'
      ensures exists k' :: k' < k + 1 && Writes(p.graph, k', o)
    {
      if o in m {
        var k' :| k' < k && Writes(p.graph, k', o);
      }
    }
  }

  // One step of IdentifyInPlaceTensors keeps the map sound.
  lemma {:induction false} AddAliasSound(p: Plan, m: AliasMap, k: nat)
    requires p.Valid() && WellFormed(p.graph) && k < |p.graph.nodes|
    requires SoundAliases(p, m)
    requires ProducedBefore(p.graph, m, k)
    requires CandidateSlot(p, k) != -1
    requires p.graph.nodes[k].inplace.dataUnmodified
             || RefCount(p.graph, FindSharedTensor(m, SharedInput(p, k))) <= 1
    ensures SoundAliases(p, m[p.graph.nodes[k].outputs[0] := FindSharedTensor(m, SharedInput(p, k))])
  {
    CandidateIsShareable(p, k);
    var g, input, o := p.graph, SharedInput(p, k), p.graph.nodes[k].outputs[0];
    var root := FindSharedTensor(m, input);
    var m' := m[o := root];
    assert o !in m;
    assert Available(g, input, k);
    if input in m {
      var k' :| MadeBy(p, m, input, k');
      assert k' < k;
    }
    assert Available(g, root, k);
    assert MadeBy(p, m', o, k);
    hide InRange, CandidateSlot, RefCount, MadeBy;
    forall x | x in m
      ensures m[x] != o && exists k' :: MadeBy(p, m', x, k')
    {
      OtherAliasStays(p, m, k, x);
    }
  }

  // An alias made before node k is none of its output.
  lemma OtherAliasStays(p: Plan, m: AliasMap, k: nat, x: int)
    requires p.Valid() && WellFormed(p.graph) && k < |p.graph.nodes| && CandidateSlot(p, k) != -1
    requires SoundAliases(p, m) && ProducedBefore(p.graph, m, k) && x in m
    ensures var o := p.graph.nodes[k].outputs[0];
            var m' := m[o := FindSharedTensor(m, SharedInput(p, k))];
            m[x] != o && exists k' :: MadeBy(p, m', x, k')
  {
    CandidateIsShareable(p, k);
    var g, o := p.graph, p.graph.nodes[k].outputs[0];
    var m' := m[o := FindSharedTensor(m, SharedInput(p, k))];
    hide InRange, CandidateSlot, RefCount;
    var k' :| MadeBy(p, m, x, k');
    assert k' < k;
    assert !Available(g, o, k') && Available(g, SharedInput(p, k'), k');
    assert MadeBy(p, m', x, k');
  }

  // ---- When a node shares

  // Input j of node i may share the buffer with the node's first output: it is present, its own
  // flag is set, and if the node changes the data, both have one size, which is more than a
  // scalar's, and the input has one reference; it is no graph input, the output is no graph
  // output, and it has the output's type or is an arena tensor.
  ghost predicate MayShare(p: Plan, i: int, j: int)
    requires p.Valid()
  {
    && 0 <= i < |p.graph.nodes| && p.graph.nodes[i].outputs != [] && 0 <= j < |p.graph.nodes[i].inputs|
    && p.graph.nodes[i].inputs[j] != -1
    && (|| (j == 0 && p.graph.nodes[i].inplace.input0Shared)
        || (j == 1 && p.graph.nodes[i].inplace.input1Shared)
        || (j == 2 && p.graph.nodes[i].inplace.input2Shared))
    && var x, o := p.graph.nodes[i].inputs[j], p.graph.nodes[i].outputs[0];
       && (p.graph.nodes[i].inplace.dataUnmodified ||
             (p.tensors[x].bytes == p.tensors[o].bytes && p.tensors[x].bytes > 4 && RefCount(p.graph, x) <= 1))
       && x !in p.graph.inputs && o !in p.graph.outputs
       && (p.tensors[x].allocationType == p.tensors[o].allocationType || p.tensors[x].allocationType == ArenaRw)
       && !p.preserveAll
  }

  // The first such input is the one that counts.
  ghost predicate IsFirstToShare(p: Plan, i: int, j: int)
    requires p.Valid()
  {
    MayShare(p, i, j) && forall k | 0 <= k < j :: !MayShare(p, i, k)
  }

  lemma {:induction false} FirstFrom(p: Plan, i: nat, j: nat)
    requires p.Valid() && i < |p.graph.nodes| && p.graph.nodes[i].outputs != []
    requires p.graph.nodes[i].inplace != INPLACE_NONE && forall k | 0 <= k < j :: !MayShare(p, i, k)
    ensures var slot := ShareableInputFrom(p, i, j);
            if slot == -1 then forall k :: !MayShare(p, i, k) else IsFirstToShare(p, i, slot)
    decreases 3 - j
  {
    hide RefCount;
    if j < 3 && j < |p.graph.nodes[i].inputs| && !MayShare(p, i, j) {
      FirstFrom(p, i, j + 1);
    }
  }

  lemma CandidateIsFirst(p: Plan, i: nat)
    requires p.Valid() && i < |p.graph.nodes|
    ensures if CandidateSlot(p, i) == -1 then forall j :: !MayShare(p, i, j)
            else IsFirstToShare(p, i, CandidateSlot(p, i))
  {
    if p.graph.nodes[i].outputs != [] && p.graph.nodes[i].inplace != INPLACE_NONE {
      FirstFrom(p, i, 0);
    }
  }

  // The map says nothing new of a tensor that the nodes from i on do not write.
  lemma {:induction false} AliasStands(p: Plan, i: nat, n: nat, x: int)
    requires p.Valid() && i <= n <= |p.graph.nodes| && Available(p.graph, x, i) && x != OPTIONAL_TENSOR
    ensures x in AliasesUpTo(p, i) <==> x in AliasesUpTo(p, n)
    ensures x in AliasesUpTo(p, i) ==> AliasesUpTo(p, i)[x] == AliasesUpTo(p, n)[x]
    decreases n
  {
    if i < n {
      AliasStands(p, i, n - 1, x);
      if CandidateSlot(p, n - 1) != -1 {
        CandidateIsShareable(p, n - 1);
      }
    }
  }

  // A node in dependency order keeps its first output in the buffer of an input exactly if there
  // is an input that may share it and, if the node changes the data, the tensor that owns the
  // buffer has one reference; and then it is the buffer of the first such input.
  lemma SharesExactlyWhenAllowed(p: Plan, i: nat)
    requires p.Valid() && WellFormed(p.graph) && i < |p.graph.nodes| && p.graph.nodes[i].outputs != []
    ensures var m, node := Aliases(p), p.graph.nodes[i];
            && (node.outputs[0] in m <==>
                  exists j :: IsFirstToShare(p, i, j)
                              && (node.inplace.dataUnmodified || RefCount(p.graph, FindSharedTensor(m, node.inputs[j])) <= 1))
            && (forall j | IsFirstToShare(p, i, j) && node.outputs[0] in m ::
                  m[node.outputs[0]] == FindSharedTensor(m, node.inputs[j]))
  {
    var g, o, slot, n := p.graph, p.graph.nodes[i].outputs[0], CandidateSlot(p, i), |p.graph.nodes|;
    CandidateIsFirst(p, i);
    AliasesUpToSound(p, i);
    hide MayShare, RefCount, InRange;
    if o == OPTIONAL_TENSOR {
      NoOptionalAlias(p);
      assert slot == -1 by { hide ShareableInputFrom; OptionalShares(p, i); }
    } else {
      assert Writes(g, i, o);
      assert o !in AliasesUpTo(p, i);
      AliasStands(p, i + 1, n, o);
      if slot != -1 {
        CandidateIsShareable(p, i);
        assert Available(g, SharedInput(p, i), i);
        AliasStands(p, i, n, SharedInput(p, i));
      }
    }
  }

  // A node that leaves out its first output is no in-place operator.
  lemma OptionalShares(p: Plan, i: nat)
    requires p.Valid() && i < |p.graph.nodes| && p.graph.nodes[i].outputs != []
    requires p.graph.nodes[i].outputs[0] == OPTIONAL_TENSOR
    ensures CandidateSlot(p, i) == -1
  {
    assert NodeInRange(p.graph.nodes[i], |p.tensors|);
  }

  lemma NoOptionalAlias(p: Plan)
    requires p.Valid() && WellFormed(p.graph)
    ensures OPTIONAL_TENSOR !in Aliases(p)
  {
    AliasesUpToSound(p, |p.graph.nodes|);
  }

  // Nothing an alias points to is itself an alias, so one lookup finds the owner; and
  // every alias stems from the one node that produces it.
  lemma AliasMapIsSound(p: Plan)
    requires p.Valid() && WellFormed(p.graph)
    ensures SoundAliases(p, Aliases(p))
  {
    AliasesUpToSound(p, |p.graph.nodes|);
  }

  // When a pass-through node shares a tensor that is itself an alias, no later node
  // reads that tensor.
  ghost predicate NoLateReaders(p: Plan, m: AliasMap)
    requires p.Valid()
  {
    forall i, k | PassesThroughAt(p, m, i) && SharedInput(p, i) in m && i < k ::
      !Reads(p.graph, k, SharedInput(p, i))
  }

  // The readers of a buffer whose owner has one reference form a chain: at any time
  // at most one tensor kept in it is still going to be read.
  lemma {:induction false} SingleWantedTensor(p: Plan, m: AliasMap, i: nat, x: int, y: int)
    requires p.Valid() && WellFormed(p.graph) && SoundAliases(p, m) && NoLateReaders(p, m)
    requires i <= |p.graph.nodes|
    requires FindSharedTensor(m, x) == FindSharedTensor(m, y)
    requires RefCount(p.graph, FindSharedTensor(m, x)) <= 1
    requires Available(p.graph, x, i) && Available(p.graph, y, i)
    requires ReadFrom(p.graph, x, i) && ReadFrom(p.graph, y, i)
    ensures x == y
    decreases i, 1
  {
    var g := p.graph;
    if i == 0 {
      NotAliasedAtStart(p, m, x);
      NotAliasedAtStart(p, m, y);
    } else if !Writes(g, i - 1, x) && !Writes(g, i - 1, y) {
      SingleWantedTensor(p, m, i - 1, x, y);
    } else if x != y {
      if Writes(g, i - 1, x) {
        SingleWantedTensorStep(p, m, i - 1, x, y);
      } else {
        SingleWantedTensorStep(p, m, i - 1, y, x);
      }
    }
  }

  lemma NotAliasedAtStart(p: Plan, m: AliasMap, x: int)
    requires p.Valid() && SoundAliases(p, m) && Available(p.graph, x, 0)
    ensures x !in m
  {
    if x in m {
      assert false;
    }
  }

  // Node k puts x in the buffer; nothing else kept there is read after node k.
  lemma {:induction false} SingleWantedTensorStep(p: Plan, m: AliasMap, k: nat, x: int, y: int)
    requires p.Valid() && WellFormed(p.graph) && SoundAliases(p, m) && NoLateReaders(p, m)
    requires k < |p.graph.nodes|
    requires FindSharedTensor(m, x) == FindSharedTensor(m, y)
    requires RefCount(p.graph, FindSharedTensor(m, x)) <= 1
    requires Writes(p.graph, k, x)
    requires Available(p.graph, y, k + 1) && ReadFrom(p.graph, y, k + 1)
    ensures x == y
    decreases k, 2
  {
    var g := p.graph;
    if x in m && x != y {
      var k' :| MadeBy(p, m, x, k');
      assert k' == k;
      var input := SharedInput(p, k);
      OnlyFirstOutputShared(p, m, k, x, y);
      SingleWantedTensor(p, m, k, input, y);
      var late :| k + 1 <= late && Reads(g, late, y);
      if OverwritesAt(p, m, k) || input !in m {
        SingleReference(g, input, k);
      }
      assert false;
    } else if x != y {
      // The owner is older than everything that shares its buffer.
      assert false;
    }
  }

  // Of the tensors a node produces, only the alias is kept in a shared buffer.
  lemma OnlyFirstOutputShared(p: Plan, m: AliasMap, k: nat, x: int, y: int)
    requires p.Valid() && WellFormed(p.graph) && SoundAliases(p, m)
    requires x in m && x != y && FindSharedTensor(m, x) == FindSharedTensor(m, y)
    requires Writes(p.graph, k, x)
    ensures !Writes(p.graph, k, y)
  {
    var k' :| MadeBy(p, m, x, k');
    assert k' == k;
    if Writes(p.graph, k, y) && y in m {
      assert false;
    }
  }

  // In-place safety: a value kept in a buffer that node i overwrites is no longer
  // wanted, neither by a later node nor as a graph output.
  ghost predicate InPlaceSafe(p: Plan, m: AliasMap)
    requires p.Valid()
  {
    forall i, x | OverwritesAt(p, m, i) && Available(p.graph, x, i) && x != OPTIONAL_TENSOR
                  && FindSharedTensor(m, x) == FindSharedTensor(m, SharedInput(p, i)) ::
      !ReadFrom(p.graph, x, i + 1) && x !in p.graph.outputs
  }

  lemma InPlaceSafety(p: Plan)
    requires p.Valid() && WellFormed(p.graph) && NoLateReaders(p, Aliases(p))
    ensures InPlaceSafe(p, Aliases(p))
  {
    var g, m := p.graph, Aliases(p);
    AliasMapIsSound(p);
    forall i, x | OverwritesAt(p, m, i) && Available(g, x, i) && x != OPTIONAL_TENSOR
                  && FindSharedTensor(m, x) == FindSharedTensor(m, SharedInput(p, i))
      ensures !ReadFrom(g, x, i + 1) && x !in g.outputs
    {
      OverwrittenValueUnwanted(p, m, i, x);
    }
  }

  lemma OverwrittenValueUnwanted(p: Plan, m: AliasMap, i: int, x: int)
    requires p.Valid() && WellFormed(p.graph) && SoundAliases(p, m) && NoLateReaders(p, m)
    requires OverwritesAt(p, m, i) && Available(p.graph, x, i) && x != OPTIONAL_TENSOR
    requires FindSharedTensor(m, x) == FindSharedTensor(m, SharedInput(p, i))
    ensures !ReadFrom(p.graph, x, i + 1) && x !in p.graph.outputs
  {
    var g, input := p.graph, SharedInput(p, i);
    CandidateIsShareable(p, i);
    var k :| MadeBy(p, m, p.graph.nodes[i].outputs[0], k);
    assert k == i;
    SingleReference(g, input, i);
    OverwrittenIsNoOutput(p, m, i, x);
    if ReadFrom(g, x, i + 1) {
      var late :| i + 1 <= late && Reads(g, late, x);
      SingleWantedTensor(p, m, i, input, x);
      assert false;
    }
  }

  // No graph output is ever kept in a buffer that a node overwrites.
  lemma OverwrittenIsNoOutput(p: Plan, m: AliasMap, i: int, x: int)
    requires p.Valid() && WellFormed(p.graph) && SoundAliases(p, m)
    requires OverwritesAt(p, m, i)
    requires FindSharedTensor(m, x) == FindSharedTensor(m, SharedInput(p, i))
    ensures x !in p.graph.outputs
  {
    var o := p.graph.nodes[i].outputs[0];
    CandidateIsShareable(p, i);
    var k :| MadeBy(p, m, o, k);
    assert k == i;
    if x in m {
      var k' :| MadeBy(p, m, x, k');
    } else {
      var reader := OwnerIsRead(p, m, o);
      SingleReference(p.graph, x, reader);
    }
  }

  // The owner of a shared buffer is read by some node.
  lemma {:induction false} OwnerIsRead(p: Plan, m: AliasMap, o: int) returns (reader: int)
    requires p.Valid() && WellFormed(p.graph) && SoundAliases(p, m) && o in m
    ensures Reads(p.graph, reader, m[o])
    decreases var k :| MadeBy(p, m, o, k); k
  {
    var k :| MadeBy(p, m, o, k);
    if SharedInput(p, k) in m {
      reader := OwnerIsRead(p, m, SharedInput(p, k));
    } else {
      reader := k;
    }
  }

  // Owners lie within the tensor table.
  lemma {:induction false} AliasesInRange(p: Plan, i: nat)
    requires p.Valid() && i <= |p.graph.nodes|
    ensures forall x | x in AliasesUpTo(p, i) :: 0 <= x < |p.tensors| && 0 <= AliasesUpTo(p, i)[x] < |p.tensors|
  {
    if i > 0 {
      AliasesInRange(p, i - 1);
    }
  }

  lemma RootInRange(p: Plan, i: nat, x: int)
    requires p.Valid() && i <= |p.graph.nodes| && 0 <= x < |p.tensors|
    ensures 0 <= FindSharedTensor(AliasesUpTo(p, i), x) < |p.tensors|
  {
    AliasesInRange(p, i);
  }
}
