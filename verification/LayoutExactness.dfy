/**
  Exactly when running in a layout gives the right values, for an observer of every
  node's inputs or of the graph outputs alone: when no node overwrites a buffer that
  holds a value which still matters to the observer. Enough for all operators, and
  needed by some.
 */
module LayoutExactness {
  import opened TfLiteGraph
  import opened InPlaceSharing
  import opened Lifetimes
  import opened MemorySemantics

  // Who looks at the values: everybody, or just the users of the graph outputs.
  datatype Observer = EveryRead | OutputsOnly

  ghost predicate Preserves(l: Layout, who: Observer, start: Memory, kernel: Kernel, scratch: Kernel) {
    OutputsRight(l, start, kernel, scratch) && (who.EveryRead? ==> ReadsRight(l, start, kernel, scratch))
  }

  // Output y of node k may depend on input x: a pass-through node looks at no input but
  // the one it copies.
  ghost predicate Uses(l: Layout, k: int, x: int, y: int)
    requires l.plan.Valid()
  {
    && Reads(l.plan.graph, k, x) && Writes(l.plan.graph, k, y)
    && (PassesThroughAt(l.plan, Aliases(l.plan), k) && y == l.plan.graph.nodes[k].outputs[0] ==>
          x == SharedInput(l.plan, k))
  }

  // The value that x has before node i matters to the observer.
  ghost predicate Needed(l: Layout, who: Observer, x: int, i: int)
    requires l.plan.Valid()
    decreases |l.plan.graph.nodes| - i
  {
    && l.Bytes(x) > 0
    && (|| x in l.plan.graph.outputs
        || (who.EveryRead? && ReadFrom(l.plan.graph, x, i))
        || exists k, y :: i <= k < |l.plan.graph.nodes| && Uses(l, k, x, y) && Needed(l, who, y, k + 1))
  }

  // In this layout node i keeps its first output in the buffer of another tensor.
  ghost predicate SharesIn(l: Layout, i: int)
    requires l.plan.Valid()
  {
    && SharesAt(l.plan, Aliases(l.plan), i)
    && var o := l.plan.graph.nodes[i].outputs[0];
    l.InArena(o) && o in l.aliases && l.InArena(l.aliases[o])
  }

  // Node i changes the bytes in which x is kept.
  ghost predicate Overwrites(l: Layout, i: int, x: int)
    requires l.plan.Valid()
  {
    && SharesIn(l, i) && !l.plan.graph.nodes[i].inplace.dataUnmodified
    && x != OPTIONAL_TENSOR && Available(l.plan.graph, x, i) && l.Bytes(x) > 0
    && l.InArena(x) && l.Owner(x) == l.Owner(l.plan.graph.nodes[i].outputs[0])
  }

  ghost predicate Safe(l: Layout, who: Observer)
    requires l.plan.Valid()
  {
    forall i, x | Overwrites(l, i, x) :: !Needed(l, who, x, i + 1)
  }

  // Pass-through nodes copy between tensors of one size, and if the copy shares a
  // buffer, the original is in it.
  ghost predicate Coherent(l: Layout)
    requires l.plan.Valid()
  {
    forall i | PassesThroughAt(l.plan, Aliases(l.plan), i) ::
      var o, input := l.plan.graph.nodes[i].outputs[0], SharedInput(l.plan, i);
      && l.Bytes(o) == l.Bytes(input)
      && (SharesIn(l, i) ==> l.InArena(input) && l.Owner(input) == l.Owner(o))
  }

  lemma NeededIsLive(l: Layout, who: Observer, x: int, i: int)
    requires l.plan.Valid() && Needed(l, who, x, i) && Available(l.plan.graph, x, i) && x != OPTIONAL_TENSOR
    ensures Live(l.plan.graph, x, i)
  {
  }

  lemma {:induction false} NeededEarlier(l: Layout, who: Observer, x: int, i: int)
    requires l.plan.Valid() && Needed(l, who, x, i + 1)
    ensures Needed(l, who, x, i)
  {
    if k, y :| i + 1 <= k < |l.plan.graph.nodes| && Uses(l, k, x, y) && Needed(l, who, y, k + 1) {
      assert i <= k;
    }
  }

  // ---- The buffer of a tensor that node i does not write

  // If node i writes to the buffer of x, it does so with an output that shares it.
  lemma JoinsIn(l: Layout, i: nat, x: int, y: int)
    requires ReadyToRun(l) && i < |l.plan.graph.nodes| && Writes(l.plan.graph, i, y) && x != y
    requires Available(l.plan.graph, x, i + 1)
    requires l.InArena(x) && l.InArena(y) && l.Owner(x) == l.Owner(y)
    ensures SharesIn(l, i) && y == l.plan.graph.nodes[i].outputs[0] && !Writes(l.plan.graph, i, x)
  {
    OwnerSharesRoot(l, x, y);
    JoinsBuffer(l.plan, i, y, x);
    AliasMapIsSound(l.plan);
  }

  // A pass-through node copies a shared buffer onto itself.
  lemma PassKeepsBuffer(l: Layout, mem: Memory, kernel: Kernel, scratch: Kernel, i: nat, x: int)
    requires ReadyToRun(l) && Coherent(l) && PassesThrough(l, kernel) && i < |l.plan.graph.nodes|
    requires SharesIn(l, i) && l.plan.graph.nodes[i].inplace.dataUnmodified
    requires Wanted(l, x, i + 1) && !Writes(l.plan.graph, i, x)
    requires l.InArena(x) && l.Owner(x) == l.Owner(l.plan.graph.nodes[i].outputs[0])
    ensures Read(l, ArenaStep(l, mem, kernel, scratch, i), x) == Read(l, mem, x)
  {
    var g, o, input := l.plan.graph, l.plan.graph.nodes[i].outputs[0], SharedInput(l.plan, i);
    var mem' := ArenaStep(l, mem, kernel, scratch, i);
    CandidateIsShareable(l.plan, i);
    var args := Args(g.nodes[i].inputs, x => Read(l, mem, x));
    StepShares(l, mem, kernel, scratch, i, x, o);
    StepStores(l, mem, kernel, scratch, i, 0);
    OwnerSharesRoot(l, x, o);
    assert Read(l, mem, input) == Read(l, mem, x);
    assert args[CandidateSlot(l.plan, i)] == Read(l, mem, input);
    assert CopiesInput(kernel, i, CandidateSlot(l.plan, i));
    assert Read(l, mem', o) == Read(l, mem, input);
  }

  // ---- Safe layouts are right

  ghost predicate Observed(l: Layout, who: Observer, x: int, i: int)
    requires l.plan.Valid()
  {
    && x != OPTIONAL_TENSOR && Available(l.plan.graph, x, i) && Needed(l, who, x, i)
    && (l.InArena(x) ==> Sourced(l.plan.graph, x))
  }

  ghost predicate AgreeFor(l: Layout, who: Observer, mem: Memory, env: Env, i: int)
    requires l.plan.Valid()
  {
    forall x | Observed(l, who, x, i) :: Read(l, mem, x) == env(x)
  }

  lemma KeptAgrees(l: Layout, who: Observer, start: Env, mem: Memory, kernel: Kernel, scratch: Kernel, i: nat, x: int)
    requires ReadyToRun(l) && Coherent(l) && Safe(l, who) && PassesThrough(l, kernel) && Sized(l, start)
    requires i < |l.plan.graph.nodes| && AgreeFor(l, who, mem, PrivateRun(l, start, kernel, i), i)
    requires Observed(l, who, x, i + 1) && !Writes(l.plan.graph, i, x)
    ensures Read(l, ArenaStep(l, mem, kernel, scratch, i), x) == PrivateRun(l, start, kernel, i + 1)(x)
  {
    var g := l.plan.graph;
    NeededIsLive(l, who, x, i + 1);
    NeededEarlier(l, who, x, i);
    assert Observed(l, who, x, i);
    UnwrittenStays(l, start, kernel, i, x);
    if y :| Writes(g, i, y) && l.InArena(x) && l.InArena(y) && l.Owner(x) == l.Owner(y) {
      JoinsIn(l, i, x, y);
      if !g.nodes[i].inplace.dataUnmodified {
        assert Overwrites(l, i, x);
      }
      PassKeepsBuffer(l, mem, kernel, scratch, i, x);
    } else {
      StepKeeps(l, mem, kernel, scratch, i, x);
    }
  }

  lemma WrittenAgrees(l: Layout, who: Observer, start: Env, mem: Memory, kernel: Kernel, scratch: Kernel, i: nat, x: int)
    requires ReadyToRun(l) && Coherent(l) && PassesThrough(l, kernel) && Sized(l, start)
    requires i < |l.plan.graph.nodes| && AgreeFor(l, who, mem, PrivateRun(l, start, kernel, i), i)
    requires Observed(l, who, x, i + 1) && Writes(l.plan.graph, i, x)
    ensures Read(l, ArenaStep(l, mem, kernel, scratch, i), x) == PrivateRun(l, start, kernel, i + 1)(x)
  {
    hide CarriesOut, ValidPlacement, TemporariesDisjoint, NothingStranded, Needed, ArenaStep, PrivateRun;
    var node, env := l.plan.graph.nodes[i], PrivateRun(l, start, kernel, i);
    var j :| 0 <= j < |node.outputs| && node.outputs[j] == x;
    var args, args' := Args(node.inputs, x => Read(l, mem, x)), Args(node.inputs, env);
    PrivateRunSized(l, start, kernel, i);
    forall s | 0 <= s < |node.inputs| && (node.inputs[s] == OPTIONAL_TENSOR || Uses(l, i, node.inputs[s], x))
      ensures args[s] == args'[s]
    {
      InputAgrees(l, who, start, mem, kernel, i, x, node.inputs[s]);
    }
    StepStores(l, mem, kernel, scratch, i, j);
    PrivateStep(l, start, kernel, i, x);
    if PassesThroughAt(l.plan, Aliases(l.plan), i) && x == node.outputs[0] {
      var slot := CandidateSlot(l.plan, i);
      assert CopiesInput(kernel, i, slot) && args[slot] == args'[slot];
    } else {
      assert args == args';
    }
  }

  lemma InputAgrees(l: Layout, who: Observer, start: Env, mem: Memory, kernel: Kernel, i: nat, x: int, z: int)
    requires ReadyToRun(l) && Sized(l, start) && i < |l.plan.graph.nodes|
    requires AgreeFor(l, who, mem, PrivateRun(l, start, kernel, i), i)
    requires Needed(l, who, x, i + 1) && (z == OPTIONAL_TENSOR || Uses(l, i, z, x))
    ensures z != OPTIONAL_TENSOR ==> Read(l, mem, z) == PrivateRun(l, start, kernel, i)(z)
  {
    PrivateRunSized(l, start, kernel, i);
    if z != OPTIONAL_TENSOR && l.Bytes(z) > 0 {
      assert Needed(l, who, z, i);
      assert Observed(l, who, z, i);
    }
  }

  lemma {:induction false} SafeRunsAgree(l: Layout, who: Observer, start: Memory, kernel: Kernel, scratch: Kernel, i: nat)
    requires ReadyToRun(l) && Coherent(l) && Safe(l, who) && PassesThrough(l, kernel) && i <= |l.plan.graph.nodes|
    ensures AgreeFor(l, who, ArenaRun(l, start, kernel, scratch, i), PrivateRun(l, StartEnv(l, start), kernel, i), i)
  {
    hide CarriesOut, ValidPlacement, TemporariesDisjoint, WellFormed, PassesThrough, Coherent, Safe, ArenaStep, Needed;
    if i > 0 {
      var mem := ArenaRun(l, start, kernel, scratch, i - 1);
      SafeRunsAgree(l, who, start, kernel, scratch, i - 1);
      forall x | Observed(l, who, x, i)
        ensures Read(l, ArenaRun(l, start, kernel, scratch, i), x) == PrivateRun(l, StartEnv(l, start), kernel, i)(x)
      {
        if Writes(l.plan.graph, i - 1, x) {
          WrittenAgrees(l, who, StartEnv(l, start), mem, kernel, scratch, i - 1, x);
        } else {
          KeptAgrees(l, who, StartEnv(l, start), mem, kernel, scratch, i - 1, x);
        }
      }
    }
  }

  lemma SafePreserves(l: Layout, who: Observer, start: Memory, kernel: Kernel, scratch: Kernel)
    requires ReadyToRun(l) && Coherent(l) && Safe(l, who) && PassesThrough(l, kernel)
    ensures Preserves(l, who, start, kernel, scratch)
  {
    var g := l.plan.graph;
    forall i, x | Reads(g, i, x) && who.EveryRead?
      ensures Read(l, ArenaRun(l, start, kernel, scratch, i), x) == PrivateRun(l, StartEnv(l, start), kernel, i)(x)
    {
      SafeRunsAgree(l, who, start, kernel, scratch, i);
      PrivateRunSized(l, StartEnv(l, start), kernel, i);
      assert l.Bytes(x) > 0 ==> Observed(l, who, x, i);
    }
    SafeRunsAgree(l, who, start, kernel, scratch, |g.nodes|);
    PrivateRunSized(l, StartEnv(l, start), kernel, |g.nodes|);
    assert forall x | x in g.outputs && x != OPTIONAL_TENSOR && (l.InArena(x) ==> Sourced(g, x)) && l.Bytes(x) > 0 ::
        Observed(l, who, x, |g.nodes|);
  }

  // ---- Unsafe layouts are wrong for some operators

  // A node passes on one of its inputs in one of its outputs.
  datatype Link = Link(input: nat, output: nat)
  type Chain = map<int, Link>

  ghost predicate Fits(l: Layout, link: Link, k: int, x: int, y: int)
    requires l.plan.Valid()
  {
    && Uses(l, k, x, y)
    && link.input < |l.plan.graph.nodes[k].inputs| && l.plan.graph.nodes[k].inputs[link.input] == x
    && link.output < |l.plan.graph.nodes[k].outputs| && l.plan.graph.nodes[k].outputs[link.output] == y
  }

  ghost predicate NoLink(chain: Chain, i: int, k: int) {
    forall j | i <= j < k :: j !in chain
  }

  // The links from node i on lead from x to something the observer looks at.
  ghost predicate LeadsOut(l: Layout, who: Observer, chain: Chain, x: int, i: int)
    requires l.plan.Valid()
    decreases |l.plan.graph.nodes| - i
  {
    var n := |l.plan.graph.nodes|;
    && l.Bytes(x) > 0
    && (|| (NoLink(chain, i, n) && (x in l.plan.graph.outputs || (who.EveryRead? && ReadFrom(l.plan.graph, x, i))))
        || exists k, y :: i <= k < n && NoLink(chain, i, k) && k in chain && Fits(l, chain[k], k, x, y)
                          && LeadsOut(l, who, chain, y, k + 1))
  }

  // Links of earlier nodes play no part.
  lemma {:induction false} EarlierLinks(l: Layout, who: Observer, chain: Chain, chain': Chain, x: int, i: int)
    requires l.plan.Valid() && LeadsOut(l, who, chain, x, i)
    requires forall j | i <= j :: (j in chain <==> j in chain') && (j in chain ==> chain[j] == chain'[j])
    ensures LeadsOut(l, who, chain', x, i)
    decreases |l.plan.graph.nodes| - i
  {
    var n := |l.plan.graph.nodes|;
    if k, y :| i <= k < n && NoLink(chain, i, k) && k in chain && Fits(l, chain[k], k, x, y)
               && LeadsOut(l, who, chain, y, k + 1) {
      EarlierLinks(l, who, chain, chain', y, k + 1);
      assert NoLink(chain', i, k) && Fits(l, chain'[k], k, x, y);
    } else {
      assert NoLink(chain', i, n);
    }
  }

  // A value that matters has a chain along which it shows.
  lemma {:induction false} NeededLeadsOut(l: Layout, who: Observer, x: int, i: int) returns (chain: Chain)
    requires l.plan.Valid() && Needed(l, who, x, i)
    ensures LeadsOut(l, who, chain, x, i) && forall j | j in chain :: i <= j
    decreases |l.plan.graph.nodes| - i
  {
    var n := |l.plan.graph.nodes|;
    if x in l.plan.graph.outputs || (who.EveryRead? && ReadFrom(l.plan.graph, x, i)) {
      chain := map[];
      assert NoLink(chain, i, n);
    } else {
      var k, y :| i <= k < n && Uses(l, k, x, y) && Needed(l, who, y, k + 1);
      var rest := NeededLeadsOut(l, who, y, k + 1);
      var s :| 0 <= s < |l.plan.graph.nodes[k].inputs| && l.plan.graph.nodes[k].inputs[s] == x;
      var j :| 0 <= j < |l.plan.graph.nodes[k].outputs| && l.plan.graph.nodes[k].outputs[j] == y;
      chain := rest[k := Link(s, j)];
      EarlierLinks(l, who, rest, chain, y, k + 1);
      assert NoLink(chain, i, k) && Fits(l, chain[k], k, x, y);
    }
  }

  // Pass-through nodes copy, the nodes of the chain spread the first byte of an input
  // over an output, and of all others those before `from` compute zeros and those from
  // there on compute ones.
  ghost function ChainKernel(p: Plan, from: nat, chain: Chain): Kernel
    requires p.Valid()
  {
    (i: nat, args: seq<Value>, k: nat, pos: nat) =>
      if PassesThroughAt(p, Aliases(p), i) && k == 0 && CandidateSlot(p, i) < |args| && pos < |args[CandidateSlot(p, i)]|
      then args[CandidateSlot(p, i)][pos]
      else if i in chain && k == chain[i].output && chain[i].input < |args| && args[chain[i].input] != []
      then args[chain[i].input][0]
      else if i < from then 0 else 1
  }

  const BLANK := Memory((_: int) => 0, (_: int, _: int) => 0)

  ghost predicate AllBytes(v: Value, b: Byte) {
    forall p | 0 <= p < |v| :: v[p] == b
  }

  lemma ChainKernelPassesThrough(l: Layout, from: nat, chain: Chain)
    requires l.plan.Valid() && Coherent(l)
    ensures PassesThrough(l, ChainKernel(l.plan, from, chain))
  {
  }

  // From zeros come zeros as long as no node computes ones.
  lemma ZerosGiveZeros(p: Plan, from: nat, chain: Chain, i: nat, args: seq<Value>, k: nat, v: Value)
    requires p.Valid() && i < from && (forall s | 0 <= s < |args| :: AllBytes(args[s], 0))
    requires IsResult(v, ChainKernel(p, from, chain), i, args, k)
    ensures AllBytes(v, 0)
  {
    forall pos | 0 <= pos < |v|
      ensures v[pos] == 0
    {
      assert v[pos] == ChainKernel(p, from, chain)(i, args, k, pos);
      if PassesThroughAt(p, Aliases(p), i) && CandidateSlot(p, i) < |args| {
        assert AllBytes(args[CandidateSlot(p, i)], 0);
      }
      if i in chain && chain[i].input < |args| {
        assert AllBytes(args[chain[i].input], 0);
      }
    }
  }

  lemma {:induction false} ZeroBefore(l: Layout, from: nat, chain: Chain, i: nat, x: int)
    requires l.plan.Valid() && WellFormed(l.plan.graph) && i <= from && i <= |l.plan.graph.nodes|
    requires x != OPTIONAL_TENSOR
    ensures AllBytes(PrivateRun(l, StartEnv(l, BLANK), ChainKernel(l.plan, from, chain), i)(x), 0)
  {
    hide ChainKernel, IsResult, InRange, WellFormed, PrivateRun;
    var start, kernel, g := StartEnv(l, BLANK), ChainKernel(l.plan, from, chain), l.plan.graph;
    if i == 0 {
      StartIsZero(l, kernel, x);
    } else if Writes(g, i - 1, x) {
      var node := g.nodes[i - 1];
      var j :| 0 <= j < |node.outputs| && node.outputs[j] == x;
      var args := Args(node.inputs, PrivateRun(l, start, kernel, i - 1));
      forall s | 0 <= s < |args|
        ensures AllBytes(args[s], 0)
      {
        if node.inputs[s] != OPTIONAL_TENSOR {
          ZeroBefore(l, from, chain, i - 1, node.inputs[s]);
        }
      }
      PrivateStep(l, start, kernel, i - 1, x);
      ZerosGiveZeros(l.plan, from, chain, i - 1, args, j, PrivateRun(l, start, kernel, i)(x));
    } else {
      ZeroBefore(l, from, chain, i - 1, x);
      UnwrittenStays(l, start, kernel, i - 1, x);
    }
  }

  lemma StartIsZero(l: Layout, kernel: Kernel, x: int)
    ensures AllBytes(PrivateRun(l, StartEnv(l, BLANK), kernel, 0)(x), 0)
  {
  }

  // Zero with private buffers, ones in the arena.
  ghost predicate Differs(l: Layout, from: nat, chain: Chain, x: int, i: nat)
    requires l.plan.Valid() && i <= |l.plan.graph.nodes|
  {
    var kernel := ChainKernel(l.plan, from, chain);
    && AllBytes(PrivateRun(l, StartEnv(l, BLANK), kernel, i)(x), 0)
    && AllBytes(Read(l, ArenaRun(l, BLANK, kernel, kernel, i), x), 1)
  }

  // Somebody still looks at x, so that it keeps its buffer.
  ghost predicate Held(l: Layout, x: int, i: int) {
    && x != OPTIONAL_TENSOR && Available(l.plan.graph, x, i) && (ReadFrom(l.plan.graph, x, i) || x in l.plan.graph.outputs)
    && (l.InArena(x) ==> Sourced(l.plan.graph, x))
  }

  // The overwriting node starts the difference.
  lemma OverwriteDiffers(l: Layout, chain: Chain, i: nat, x: int)
    requires ReadyToRun(l) && Coherent(l) && Overwrites(l, i, x) && (forall j | j in chain :: i < j)
    requires i < |l.plan.graph.nodes| && Held(l, x, i + 1)
    ensures Differs(l, i, chain, x, i + 1)
  {
    hide CarriesOut, ValidPlacement, TemporariesDisjoint, NothingStranded, InRange;
    var g, o, kernel := l.plan.graph, l.plan.graph.nodes[i].outputs[0], ChainKernel(l.plan, i, chain);
    var mem := ArenaRun(l, BLANK, kernel, kernel, i);
    CandidateIsShareable(l.plan, i);
    ZeroBefore(l, i, chain, i, x);
    UnwrittenStays(l, StartEnv(l, BLANK), kernel, i, x);
    StepStores(l, mem, kernel, kernel, i, 0);
    StepShares(l, mem, kernel, kernel, i, x, o);
    OwnerSharesRoot(l, x, o);
  }

  // A node off the chain leaves it.
  lemma DifferenceStays(l: Layout, from: nat, chain: Chain, i: nat, x: int)
    requires ReadyToRun(l) && Coherent(l) && from <= i < |l.plan.graph.nodes| && i !in chain
    requires Differs(l, from, chain, x, i) && Held(l, x, i + 1) && !Writes(l.plan.graph, i, x)
    ensures Differs(l, from, chain, x, i + 1)
  {
    hide CarriesOut, ValidPlacement, TemporariesDisjoint, NothingStranded, InRange;
    var g, kernel := l.plan.graph, ChainKernel(l.plan, from, chain);
    var mem := ArenaRun(l, BLANK, kernel, kernel, i);
    UnwrittenStays(l, StartEnv(l, BLANK), kernel, i, x);
    if y :| Writes(g, i, y) && l.InArena(x) && l.InArena(y) && l.Owner(x) == l.Owner(y) {
      JoinsIn(l, i, x, y);
      if g.nodes[i].inplace.dataUnmodified {
        ChainKernelPassesThrough(l, from, chain);
        PassKeepsBuffer(l, mem, kernel, kernel, i, x);
      } else {
        StepShares(l, mem, kernel, kernel, i, x, y);
        StepStores(l, mem, kernel, kernel, i, 0);
      }
    } else {
      StepKeeps(l, mem, kernel, kernel, i, x);
    }
  }

  lemma {:induction false} DifferenceLasts(l: Layout, from: nat, chain: Chain, i: nat, k: nat, x: int)
    requires ReadyToRun(l) && Coherent(l) && from <= i <= k <= |l.plan.graph.nodes| && NoLink(chain, i, k)
    requires Differs(l, from, chain, x, i) && Available(l.plan.graph, x, i) && Held(l, x, k)
    ensures Differs(l, from, chain, x, k)
    decreases k - i
  {
    hide CarriesOut, ValidPlacement, TemporariesDisjoint, NothingStranded, WellFormed, InRange, Coherent, Differs;
    if i < k {
      assert Held(l, x, k - 1);
      DifferenceLasts(l, from, chain, i, k - 1, x);
      DifferenceStays(l, from, chain, k - 1, x);
    }
  }

  // A node on the chain passes it on.
  lemma DifferenceMoves(l: Layout, from: nat, chain: Chain, k: nat, x: int, y: int)
    requires ReadyToRun(l) && Coherent(l) && k < |l.plan.graph.nodes| && l.Bytes(x) > 0
    requires Differs(l, from, chain, x, k) && k in chain && Fits(l, chain[k], k, x, y)
    ensures Differs(l, from, chain, y, k + 1)
  {
    var node, kernel, link := l.plan.graph.nodes[k], ChainKernel(l.plan, from, chain), chain[k];
    var mem, env := ArenaRun(l, BLANK, kernel, kernel, k), PrivateRun(l, StartEnv(l, BLANK), kernel, k);
    var args, args' := Args(node.inputs, z => Read(l, mem, z)), Args(node.inputs, env);
    PrivateRunSized(l, StartEnv(l, BLANK), kernel, k);
    assert args[link.input] == Read(l, mem, x) && args'[link.input] == env(x);
    StepStores(l, mem, kernel, kernel, k, link.output);
    PrivateStep(l, StartEnv(l, BLANK), kernel, k, y);
    LinkResult(l, from, chain, k, x, y, args, Read(l, ArenaStep(l, mem, kernel, kernel, k), y), 1);
    LinkResult(l, from, chain, k, x, y, args', PrivateRun(l, StartEnv(l, BLANK), kernel, k + 1)(y), 0);
  }

  lemma LinkResult(l: Layout, from: nat, chain: Chain, k: nat, x: int, y: int, args: seq<Value>, v: Value, b: Byte)
    requires l.plan.Valid() && Coherent(l) && k in chain && Fits(l, chain[k], k, x, y)
    requires |args| == |l.plan.graph.nodes[k].inputs| && |v| == l.Bytes(y) && l.Bytes(x) > 0
    requires forall s | 0 <= s < |args| && l.plan.graph.nodes[k].inputs[s] == x ::
               |args[s]| == l.Bytes(x) && AllBytes(args[s], b)
    requires IsResult(v, ChainKernel(l.plan, from, chain), k, args, chain[k].output)
    ensures AllBytes(v, b)
  {
  }

  lemma ProducedIsAvailable(g: Graph, k: int, y: int)
    requires WellFormed(g) && Writes(g, k, y)
    ensures y != OPTIONAL_TENSOR && Available(g, y, k + 1) && Sourced(g, y)
  {
  }

  lemma DifferenceIsSeen(l: Layout, who: Observer, from: nat, chain: Chain, i: nat, x: int)
    requires ReadyToRun(l) && Coherent(l) && from <= i <= |l.plan.graph.nodes| && l.Bytes(x) > 0
    requires NoLink(chain, i, |l.plan.graph.nodes|) && Differs(l, from, chain, x, i)
    requires x in l.plan.graph.outputs || (who.EveryRead? && ReadFrom(l.plan.graph, x, i))
    requires x != OPTIONAL_TENSOR && Available(l.plan.graph, x, i) && (l.InArena(x) ==> Sourced(l.plan.graph, x))
    ensures !Preserves(l, who, BLANK, ChainKernel(l.plan, from, chain), ChainKernel(l.plan, from, chain))
  {
    hide CarriesOut, ValidPlacement, TemporariesDisjoint, NothingStranded, WellFormed, Coherent, ChainKernel;
    hide ArenaRun, PrivateRun, Aliases;
    var g, kernel := l.plan.graph, ChainKernel(l.plan, from, chain);
    var k := |g.nodes|;
    if x !in g.outputs {
      k :| i <= k && Reads(g, k, x);
    }
    DifferenceLasts(l, from, chain, i, k, x);
    PrivateRunSized(l, StartEnv(l, BLANK), kernel, k);
    var got, expected := Read(l, ArenaRun(l, BLANK, kernel, kernel, k), x), PrivateRun(l, StartEnv(l, BLANK), kernel, k)(x);
    assert got[0] == 1 && expected[0] == 0;
  }

  // It shows where the chain ends.
  lemma {:induction false} DifferenceShows(l: Layout, who: Observer, from: nat, chain: Chain, i: nat, x: int)
    requires ReadyToRun(l) && Coherent(l) && from <= i <= |l.plan.graph.nodes|
    requires LeadsOut(l, who, chain, x, i) && Differs(l, from, chain, x, i)
    requires x != OPTIONAL_TENSOR && Available(l.plan.graph, x, i) && (l.InArena(x) ==> Sourced(l.plan.graph, x))
    ensures !Preserves(l, who, BLANK, ChainKernel(l.plan, from, chain), ChainKernel(l.plan, from, chain))
    decreases |l.plan.graph.nodes| - i
  {
    hide CarriesOut, ValidPlacement, TemporariesDisjoint, NothingStranded, WellFormed, InRange, Coherent, ChainKernel;
    hide ArenaRun, PrivateRun, Aliases, Differs, Preserves;
    var g, n := l.plan.graph, |l.plan.graph.nodes|;
    if k, y :| i <= k < n && NoLink(chain, i, k) && k in chain && Fits(l, chain[k], k, x, y)
               && LeadsOut(l, who, chain, y, k + 1) {
      DifferenceLasts(l, from, chain, i, k, x);
      DifferenceMoves(l, from, chain, k, x, y);
      ProducedIsAvailable(g, k, y);
      DifferenceShows(l, who, from, chain, k + 1, y);
    } else {
      DifferenceIsSeen(l, who, from, chain, i, x);
    }
  }

  // A value that matters and is overwritten makes some run go wrong.
  lemma HazardShows(l: Layout, who: Observer, i: nat, x: int)
    requires ReadyToRun(l) && Coherent(l) && Overwrites(l, i, x) && Needed(l, who, x, i + 1)
    ensures exists start, kernel, scratch :: PassesThrough(l, kernel) && !Preserves(l, who, start, kernel, scratch)
  {
    hide CarriesOut, ValidPlacement, TemporariesDisjoint, NothingStranded, WellFormed, InRange, Coherent, ChainKernel;
    hide LeadsOut, Preserves, PassesThrough, Needed, Differs, ReadFrom;
    var chain := NeededLeadsOut(l, who, x, i + 1);
    var kernel := ChainKernel(l.plan, i, chain);
    OverwrittenIsSourced(l, i, x);
    NeededIsLive(l, who, x, i + 1);
    OverwriteDiffers(l, chain, i, x);
    DifferenceShows(l, who, i, chain, i + 1, x);
    ChainKernelPassesThrough(l, i, chain);
    assert !Preserves(l, who, BLANK, kernel, kernel);
  }

  lemma OverwrittenIsSourced(l: Layout, i: int, x: int)
    requires ReadyToRun(l) && Overwrites(l, i, x)
    ensures Sourced(l.plan.graph, x)
  {
    var o := l.plan.graph.nodes[i].outputs[0];
    AliasMapIsSound(l.plan);
    OwnerSharesRoot(l, x, o);
    var reader := OwnerIsRead(l.plan, Aliases(l.plan), o);
    if x in Aliases(l.plan) {
      var k :| MadeBy(l.plan, Aliases(l.plan), x, k);
    } else {
      assert Reads(l.plan.graph, reader, x);
    }
  }

  // Who looks at less is content with less.
  lemma SafeForOutputs(l: Layout)
    requires l.plan.Valid() && Safe(l, EveryRead)
    ensures Safe(l, OutputsOnly)
  {
    forall i, x | Overwrites(l, i, x)
      ensures !Needed(l, OutputsOnly, x, i + 1)
    {
      if Needed(l, OutputsOnly, x, i + 1) {
        NeededByAll(l, x, i + 1);
      }
    }
  }

  lemma {:induction false} NeededByAll(l: Layout, x: int, i: int)
    requires l.plan.Valid() && Needed(l, OutputsOnly, x, i)
    ensures Needed(l, EveryRead, x, i)
  {
    if k, y :| i <= k < |l.plan.graph.nodes| && Uses(l, k, x, y) && Needed(l, OutputsOnly, y, k + 1) {
      assert ReadFrom(l.plan.graph, x, i);
    }
  }

  // The exact condition, for either observer.
  lemma PreservedExactlyWhenSafe(l: Layout, who: Observer)
    requires ReadyToRun(l) && Coherent(l)
    ensures Safe(l, who) <==>
            forall start, kernel, scratch | PassesThrough(l, kernel) :: Preserves(l, who, start, kernel, scratch)
  {
    if Safe(l, who) {
      forall start, kernel, scratch | PassesThrough(l, kernel)
        ensures Preserves(l, who, start, kernel, scratch)
      {
        SafePreserves(l, who, start, kernel, scratch);
      }
    } else {
      var i, x :| Overwrites(l, i, x) && Needed(l, who, x, i + 1);
      HazardShows(l, who, i, x);
    }
  }
}
