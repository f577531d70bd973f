/**
  What the plan is for: running a graph in one arena, with buffers that overlap in
  memory and tensors that share buffers, gives the results of running it with a
  private buffer for every tensor.
 */
module MemorySemantics {
  import opened TfLiteGraph
  import opened InPlaceSharing
  import opened Lifetimes

  newtype Byte = b: int | 0 <= b < 256
  type Value = seq<Byte>

  // Byte `pos` that node i computes for its k-th output (or leaves in its k-th
  // temporary) from the values of its inputs.
  type Kernel = (nat, seq<Value>, nat, nat) -> Byte

  // Arena memory by address, and the buffers of tensors that live outside the arena.
  datatype Memory = Memory(arena: int -> Byte, own: (int, int) -> Byte)

  // A plan together with the tensor table at execution time, the aliases that are
  // still in force, the planned lifetimes and the offset of every buffer.
  datatype Layout = Layout(plan: Plan, tensors: seq<Tensor>, aliases: AliasMap,
                           allocNode: seq<int>, deallocNode: seq<int>, offset: int -> int) {
    predicate InArena(x: int) {
      0 <= x < |tensors| && tensors[x].allocationType == ArenaRw
    }

    function Bytes(x: int): nat {
      if 0 <= x < |tensors| then tensors[x].bytes else 0
    }

    // The tensor whose buffer holds x.
    function Owner(x: int): int {
      if x in aliases && InArena(x) && InArena(aliases[x]) then aliases[x] else x
    }

    predicate ActiveAt(w: int, i: int)
      requires |allocNode| == |deallocNode| == |tensors|
    {
      InArena(w) && allocNode[w] <= i <= deallocNode[w]
    }
  }

  function Fill(len: nat, f: int -> Byte): (v: Value)
    ensures |v| == len && forall p | 0 <= p < len :: v[p] == f(p)
  {
    seq(len, p => f(p))
  }

  // ---- Running in the arena

  function Read(l: Layout, mem: Memory, x: int): Value {
    if l.InArena(x)
    then var base := l.offset(l.Owner(x)); Fill(l.Bytes(x), p => mem.arena(base + p))
    else Fill(l.Bytes(x), p => mem.own(x, p))
  }

  function Write(l: Layout, mem: Memory, x: int, v: int -> Byte): Memory {
    if l.InArena(x)
    then
      var base, len := l.offset(l.Owner(x)), l.Bytes(x);
      mem.(arena := a => if base <= a < base + len then v(a - base) else mem.arena(a))
    else
      mem.(own := (y, p) => if y == x then v(p) else mem.own(y, p))
  }

  function Args(inputs: seq<int>, read: int -> Value): (args: seq<Value>)
    ensures |args| == |inputs|
    ensures forall j | 0 <= j < |inputs| && inputs[j] != OPTIONAL_TENSOR :: args[j] == read(inputs[j])
  {
    seq(|inputs|, j requires 0 <= j < |inputs| => if inputs[j] == OPTIONAL_TENSOR then [] else read(inputs[j]))
  }

  // Stores the first k results of node i in the listed tensors.
  function WriteAll(l: Layout, mem: Memory, kernel: Kernel, i: nat, args: seq<Value>, dest: seq<int>, k: nat): Memory
    requires k <= |dest|
  {
    if k == 0 then mem else
    var before := WriteAll(l, mem, kernel, i, args, dest, k - 1);
    if dest[k - 1] == OPTIONAL_TENSOR then before
    else Write(l, before, dest[k - 1], p => if p < 0 then 0 else kernel(i, args, k - 1, p))
  }

  // Node i reads its inputs, clobbers its temporaries and stores its outputs.
  function ArenaStep(l: Layout, mem: Memory, kernel: Kernel, scratch: Kernel, i: nat): Memory
    requires i < |l.plan.graph.nodes|
  {
    var node := l.plan.graph.nodes[i];
    var args := Args(node.inputs, x => Read(l, mem, x));
    var clobbered := WriteAll(l, mem, scratch, i, args, node.temporaries, |node.temporaries|);
    WriteAll(l, clobbered, kernel, i, args, node.outputs, |node.outputs|)
  }

  function ArenaRun(l: Layout, start: Memory, kernel: Kernel, scratch: Kernel, i: nat): Memory
    requires i <= |l.plan.graph.nodes|
  {
    if i == 0 then start else ArenaStep(l, ArenaRun(l, start, kernel, scratch, i - 1), kernel, scratch, i - 1)
  }

  // ---- Running with private buffers

  type Env = int -> Value

  function StoreAll(l: Layout, env: Env, kernel: Kernel, i: nat, args: seq<Value>, dest: seq<int>, k: nat): Env
    requires k <= |dest|
  {
    if k == 0 then env else
    var before := StoreAll(l, env, kernel, i, args, dest, k - 1);
    if dest[k - 1] == OPTIONAL_TENSOR then before
    else
      var value := Fill(l.Bytes(dest[k - 1]), p => if p < 0 then 0 else kernel(i, args, k - 1, p));
      x => if x == dest[k - 1] then value else before(x)
  }

  function PrivateRun(l: Layout, start: Env, kernel: Kernel, i: nat): Env
    requires i <= |l.plan.graph.nodes|
  {
    if i == 0 then start else
    var env := PrivateRun(l, start, kernel, i - 1);
    var node := l.plan.graph.nodes[i - 1];
    StoreAll(l, env, kernel, i - 1, Args(node.inputs, env), node.outputs, |node.outputs|)
  }

  // Both runs start from the same tensor contents.
  function StartEnv(l: Layout, start: Memory): Env {
    x => Read(l, start, x)
  }

  // ---- What execution relies on

  ghost predicate Sourced(g: Graph, x: int) {
    Produced(g, x) || x in g.inputs || x in g.variables
  }

  // The layout carries out the plan: lifetimes are the planned ones, temporaries live
  // for their node, aliases may have been dropped but not added, and tensors that
  // share a buffer have the same size.
  ghost predicate CarriesOut(l: Layout)
    requires l.plan.Valid()
  {
    var g, m := l.plan.graph, Aliases(l.plan);
    && |l.allocNode| == |l.deallocNode| == |l.tensors| && |l.plan.tensors| <= |l.tensors|
    && (forall x | 0 <= x < |l.tensors| && !(exists i :: UsesTemporary(g, i, x)) ::
          && AllocatedAt(g, l.allocNode[x], x, |g.nodes|)
          && (if l.plan.preserveAll then l.deallocNode[x] == NOT_ASSIGNED
              else ReleasedAt(g, m, l.deallocNode[x], x)))
    && (forall i, x | UsesTemporary(g, i, x) :: 0 <= x < |l.tensors| && l.allocNode[x] == i <= l.deallocNode[x])
    && (forall x | x in l.aliases :: x in m && l.aliases[x] == m[x])
    && (forall x | x in l.aliases && l.InArena(x) && l.InArena(m[x]) :: l.Bytes(x) == l.Bytes(m[x]))
    // Arena tensors that a node reads have a source; constants live elsewhere.
    && (forall i, x | Reads(g, i, x) && l.InArena(x) :: Sourced(g, x))
  }

  ghost predicate DisjointBuffers(l: Layout, v: int, w: int) {
    l.offset(v) + l.Bytes(v) <= l.offset(w) || l.offset(w) + l.Bytes(w) <= l.offset(v)
  }

  // Buffers whose lifetimes meet do not overlap.
  ghost predicate ValidPlacement(l: Layout) {
    && |l.allocNode| == |l.deallocNode| == |l.tensors|
    && forall v, w | v != w && l.InArena(v) && l.InArena(w) && l.Owner(v) == v && l.Owner(w) == w
                     && l.allocNode[v] != NOT_ASSIGNED && l.allocNode[w] != NOT_ASSIGNED
                     && l.allocNode[v] <= l.deallocNode[w] && l.allocNode[w] <= l.deallocNode[v] ::
        DisjointBuffers(l, v, w)
  }

  // A node declared as leaving its data unmodified copies the input it shares.
  ghost predicate PassesThrough(l: Layout, kernel: Kernel)
    requires l.plan.Valid()
  {
    forall i | PassesThroughAt(l.plan, Aliases(l.plan), i) ::
      && l.Bytes(l.plan.graph.nodes[i].outputs[0]) == l.Bytes(SharedInput(l.plan, i))
      && CopiesInput(kernel, i, CandidateSlot(l.plan, i))
  }

  ghost predicate CopiesInput(kernel: Kernel, i: nat, slot: nat) {
    forall args: seq<Value>, p: nat | slot < |args| && p < |args[slot]| :: kernel(i, args, 0, p) == args[slot][p]
  }

  // A tensor of the persistent arena is not given the buffer of a tensor of the other
  // arena, in which it could not be found.
  ghost predicate NothingStranded(l: Layout) {
    forall x | x in l.aliases && 0 <= x < |l.tensors| && l.tensors[x].allocationType == ArenaRwPersistent ::
      l.InArena(l.aliases[x]) ==> l.Bytes(x) == 0
  }

  ghost predicate ReadyToRun(l: Layout) {
    && l.plan.Valid()
    && WellFormed(l.plan.graph)
    && TemporariesDisjoint(l.plan.graph, |l.tensors|)
    && CarriesOut(l)
    && ValidPlacement(l)
    && NothingStranded(l)
  }

  // ---- One write

  // Storing y leaves the bytes of x alone.
  ghost predicate Apart(l: Layout, x: int, y: int) {
    && x != y
    && (l.InArena(x) && l.InArena(y) ==>
          var a, b := l.offset(l.Owner(x)), l.offset(l.Owner(y));
          a + l.Bytes(x) <= b || b + l.Bytes(y) <= a)
  }

  // Storing y determines the bytes of x.
  ghost predicate SameBytes(l: Layout, x: int, y: int) {
    x == y || (l.InArena(x) && l.InArena(y) && l.Owner(x) == l.Owner(y) && l.Bytes(x) == l.Bytes(y))
  }

  lemma WriteElsewhere(l: Layout, mem: Memory, x: int, y: int, v: int -> Byte)
    requires Apart(l, x, y)
    ensures Read(l, Write(l, mem, y, v), x) == Read(l, mem, x)
  {
  }

  lemma WriteHere(l: Layout, mem: Memory, x: int, y: int, v: int -> Byte)
    requires SameBytes(l, x, y)
    ensures Read(l, Write(l, mem, y, v), x) == Fill(l.Bytes(x), v)
  {
  }

  lemma {:induction false} WriteAllElsewhere(l: Layout, mem: Memory, kernel: Kernel, i: nat, args: seq<Value>,
                                             dest: seq<int>, k: nat, x: int)
    requires k <= |dest|
    requires forall j | 0 <= j < k && dest[j] != OPTIONAL_TENSOR :: Apart(l, x, dest[j])
    ensures Read(l, WriteAll(l, mem, kernel, i, args, dest, k), x) == Read(l, mem, x)
  {
    if k > 0 {
      WriteAllElsewhere(l, mem, kernel, i, args, dest, k - 1, x);
      if dest[k - 1] != OPTIONAL_TENSOR {
        var before := WriteAll(l, mem, kernel, i, args, dest, k - 1);
        WriteElsewhere(l, before, x, dest[k - 1], p => if p < 0 then 0 else kernel(i, args, k - 1, p));
      }
    }
  }

  // The value node i stores in its k-th destination.
  ghost predicate IsResult(v: Value, kernel: Kernel, i: nat, args: seq<Value>, k: nat) {
    forall p | 0 <= p < |v| :: v[p] == kernel(i, args, k, p)
  }

  lemma {:induction false} WriteAllHere(l: Layout, mem: Memory, kernel: Kernel, i: nat, args: seq<Value>,
                                        dest: seq<int>, k: nat, j: nat, x: int)
    requires j < k <= |dest| && dest[j] != OPTIONAL_TENSOR && SameBytes(l, x, dest[j])
    requires forall j' | j < j' < k && dest[j'] != OPTIONAL_TENSOR :: Apart(l, x, dest[j'])
    ensures IsResult(Read(l, WriteAll(l, mem, kernel, i, args, dest, k), x), kernel, i, args, j)
  {
    var before := WriteAll(l, mem, kernel, i, args, dest, k - 1);
    if j == k - 1 {
      WriteHere(l, before, x, dest[j], p => if p < 0 then 0 else kernel(i, args, j, p));
    } else {
      WriteAllHere(l, mem, kernel, i, args, dest, k - 1, j, x);
      if dest[k - 1] != OPTIONAL_TENSOR {
        WriteElsewhere(l, before, x, dest[k - 1], p => if p < 0 then 0 else kernel(i, args, k - 1, p));
      }
    }
  }

  lemma {:induction false} StoreAllElsewhere(l: Layout, env: Env, kernel: Kernel, i: nat, args: seq<Value>,
                                             dest: seq<int>, k: nat, x: int)
    requires k <= |dest| && x != OPTIONAL_TENSOR && x !in dest[..k]
    ensures StoreAll(l, env, kernel, i, args, dest, k)(x) == env(x)
  {
    if k > 0 {
      assert dest[k - 1] in dest[..k];
      assert forall y | y in dest[..k - 1] :: y in dest[..k];
      StoreAllElsewhere(l, env, kernel, i, args, dest, k - 1, x);
    }
  }

  lemma {:induction false} StoreAllHere(l: Layout, env: Env, kernel: Kernel, i: nat, args: seq<Value>,
                                        dest: seq<int>, k: nat, j: nat)
    requires j < k <= |dest| && dest[j] != OPTIONAL_TENSOR && DistinctPositions(dest)
    ensures var v := StoreAll(l, env, kernel, i, args, dest, k)(dest[j]);
      |v| == l.Bytes(dest[j]) && IsResult(v, kernel, i, args, j)
  {
    if j < k - 1 {
      StoreAllHere(l, env, kernel, i, args, dest, k - 1, j);
    }
  }

  // ---- Buffers in use

  lemma OwnersAreFlat(l: Layout, x: int)
    requires l.plan.Valid() && WellFormed(l.plan.graph) && CarriesOut(l)
    ensures l.Owner(l.Owner(x)) == l.Owner(x)
    ensures l.InArena(x) <==> l.InArena(l.Owner(x))
    ensures l.InArena(x) ==> l.Bytes(l.Owner(x)) == l.Bytes(x)
  {
    AliasMapIsSound(l.plan);
  }

  // A tensor that is still wanted keeps its buffer in use.
  lemma WantedIsActive(l: Layout, x: int, i: nat)
    requires ReadyToRun(l) && i < |l.plan.graph.nodes|
    requires l.InArena(x) && Sourced(l.plan.graph, x)
    requires Available(l.plan.graph, x, i + 1) && (ReadFrom(l.plan.graph, x, i) || x in l.plan.graph.outputs)
    ensures l.ActiveAt(l.Owner(x), i)
  {
    var g, m, w := l.plan.graph, Aliases(l.plan), l.Owner(x);
    AliasMapIsSound(l.plan);
    if w != x {
      var reader := OwnerIsRead(l.plan, m, x);
      var k :| MadeBy(l.plan, m, x, k);
      assert k <= i;
    }
    assert Sourced(g, w);
    assert !(exists k :: UsesTemporary(g, k, w));
    assert AllocatedAt(g, l.allocNode[w], w, |g.nodes|);
    assert forall k | Reads(g, k, x) :: ReadsBuffer(g, m, k, FindSharedTensor(m, x));
    if !l.plan.preserveAll && l.deallocNode[w] < i {
      assert false;
    }
  }

  // The buffer a node writes to is in use at that node.
  lemma WrittenIsActive(l: Layout, x: int, i: nat)
    requires ReadyToRun(l) && i < |l.plan.graph.nodes|
    requires l.InArena(x) && Writes(l.plan.graph, i, x)
    ensures l.ActiveAt(l.Owner(x), i)
  {
    var g, m, w := l.plan.graph, Aliases(l.plan), l.Owner(x);
    AliasMapIsSound(l.plan);
    assert !(exists k :: UsesTemporary(g, k, x));
    if w != x {
      var reader := OwnerIsRead(l.plan, m, x);
      assert Sourced(g, w) && !(exists k :: UsesTemporary(g, k, w));
      var k :| MadeBy(l.plan, m, x, k);
      assert k == i && ReadsBuffer(g, m, i, w);
    }
    assert AllocatedAt(g, l.allocNode[w], w, |g.nodes|);
    if !l.plan.preserveAll && l.deallocNode[w] < i {
      var d := l.deallocNode[w];
      assert ReleasedAt(g, m, d, w) && w == x;
      NoReadBeforeProduction(l.plan, m, i, x);
      CountStandsStill(g, m, 0, i + 1, x);
      assert false;
    }
  }

  lemma ActiveBuffersDisjoint(l: Layout, x: int, y: int, i: nat)
    requires ReadyToRun(l) && l.InArena(x) && l.InArena(y) && l.Owner(x) != l.Owner(y) && i < |l.plan.graph.nodes|
    requires l.ActiveAt(l.Owner(x), i) && l.ActiveAt(l.Owner(y), i)
    ensures Apart(l, x, y)
  {
    OwnersAreFlat(l, x);
    OwnersAreFlat(l, y);
    assert DisjointBuffers(l, l.Owner(x), l.Owner(y));
  }

  // ---- One node

  // Results are as long as the tensors they are stored in.
  ghost predicate Sized(l: Layout, env: Env) {
    forall x :: |env(x)| == l.Bytes(x)
  }

  lemma {:induction false} StoreAllSized(l: Layout, env: Env, kernel: Kernel, i: nat, args: seq<Value>,
                                         dest: seq<int>, k: nat)
    requires k <= |dest| && Sized(l, env)
    ensures Sized(l, StoreAll(l, env, kernel, i, args, dest, k))
  {
    if k > 0 {
      StoreAllSized(l, env, kernel, i, args, dest, k - 1);
    }
  }

  lemma {:induction false} PrivateRunSized(l: Layout, start: Env, kernel: Kernel, i: nat)
    requires i <= |l.plan.graph.nodes| && Sized(l, start)
    ensures Sized(l, PrivateRun(l, start, kernel, i))
  {
    if i > 0 {
      PrivateRunSized(l, start, kernel, i - 1);
      var env := PrivateRun(l, start, kernel, i - 1);
      var node := l.plan.graph.nodes[i - 1];
      StoreAllSized(l, env, kernel, i - 1, Args(node.inputs, env), node.outputs, |node.outputs|);
    }
  }

  // What a node with private buffers does to x.
  lemma PrivateStep(l: Layout, start: Env, kernel: Kernel, i: nat, x: int)
    requires l.plan.Valid() && WellFormed(l.plan.graph) && i < |l.plan.graph.nodes| && Sized(l, start)
    requires x != OPTIONAL_TENSOR
    ensures var g := l.plan.graph;
      var env, env' := PrivateRun(l, start, kernel, i), PrivateRun(l, start, kernel, i + 1);
      var outputs := g.nodes[i].outputs;
      && |env'(x)| == l.Bytes(x)
      && (!Writes(g, i, x) ==> env'(x) == env(x))
      && (forall j | 0 <= j < |outputs| && outputs[j] == x ::
            IsResult(env'(x), kernel, i, Args(g.nodes[i].inputs, env), j))
  {
    var g := l.plan.graph;
    var env, outputs := PrivateRun(l, start, kernel, i), g.nodes[i].outputs;
    var args := Args(g.nodes[i].inputs, env);
    PrivateRunSized(l, start, kernel, i + 1);
    if !Writes(g, i, x) {
      assert outputs[..|outputs|] == outputs;
      StoreAllElsewhere(l, env, kernel, i, args, outputs, |outputs|, x);
    }
    forall j | 0 <= j < |outputs| && outputs[j] == x
      ensures IsResult(PrivateRun(l, start, kernel, i + 1)(x), kernel, i, args, j)
    {
      StoreAllHere(l, env, kernel, i, args, outputs, |outputs|, j);
    }
  }

  // With private buffers a pass-through node produces the value of the input it shares.
  lemma PassThroughCopies(l: Layout, start: Env, kernel: Kernel, i: nat)
    requires ReadyToRun(l) && PassesThrough(l, kernel) && Sized(l, start)
    requires PassesThroughAt(l.plan, Aliases(l.plan), i)
    ensures PrivateRun(l, start, kernel, i + 1)(l.plan.graph.nodes[i].outputs[0])
            == PrivateRun(l, start, kernel, i)(SharedInput(l.plan, i))
  {
    CandidateIsShareable(l.plan, i);
    var g, o, slot := l.plan.graph, l.plan.graph.nodes[i].outputs[0], CandidateSlot(l.plan, i);
    PrivateStep(l, start, kernel, i, o);
    PrivateRunSized(l, start, kernel, i);
    var env, env' := PrivateRun(l, start, kernel, i), PrivateRun(l, start, kernel, i + 1);
    var args := Args(g.nodes[i].inputs, env);
    assert IsResult(env'(o), kernel, i, args, 0);
    assert CopiesInput(kernel, i, slot) && args[slot] == env(SharedInput(l.plan, i));
    assert env'(o) == args[slot];
  }

  // All tensors in one buffer that are still wanted have the same value: that is what
  // makes it safe for pass-through nodes to share.
  lemma {:induction false} ClassAgrees(l: Layout, start: Env, kernel: Kernel, i: nat, x: int, y: int)
    requires ReadyToRun(l) && InPlaceSafe(l.plan, Aliases(l.plan)) && PassesThrough(l, kernel) && Sized(l, start)
    requires i <= |l.plan.graph.nodes|
    requires Live(l.plan.graph, x, i) && Live(l.plan.graph, y, i)
    requires FindSharedTensor(Aliases(l.plan), x) == FindSharedTensor(Aliases(l.plan), y)
    ensures PrivateRun(l, start, kernel, i)(x) == PrivateRun(l, start, kernel, i)(y)
    decreases i, 1
  {
    hide CarriesOut, ValidPlacement, TemporariesDisjoint, PassesThrough, InPlaceSafe, PrivateRun, WellFormed, InRange;
    var g, m := l.plan.graph, Aliases(l.plan);
    if i == 0 {
      AliasMapIsSound(l.plan);
      NotAliasedAtStart(l.plan, m, x);
      NotAliasedAtStart(l.plan, m, y);
    } else if x != y {
      hide Live, Aliases;
      if Writes(g, i - 1, x) {
        ClassAgreesStep(l, start, kernel, i - 1, x, y);
      } else if Writes(g, i - 1, y) {
        ClassAgreesStep(l, start, kernel, i - 1, y, x);
      } else {
        LiveEarlier(g, x, i - 1);
        LiveEarlier(g, y, i - 1);
        ClassAgrees(l, start, kernel, i - 1, x, y);
        UnwrittenStays(l, start, kernel, i - 1, x);
        UnwrittenStays(l, start, kernel, i - 1, y);
      }
    }
  }

  lemma LiveEarlier(g: Graph, x: int, i: nat)
    requires Live(g, x, i + 1) && !Writes(g, i, x)
    ensures Live(g, x, i)
  {
  }

  lemma UnwrittenStays(l: Layout, start: Env, kernel: Kernel, i: nat, x: int)
    requires l.plan.Valid() && WellFormed(l.plan.graph) && i < |l.plan.graph.nodes| && Sized(l, start)
    requires x != OPTIONAL_TENSOR && !Writes(l.plan.graph, i, x)
    ensures PrivateRun(l, start, kernel, i + 1)(x) == PrivateRun(l, start, kernel, i)(x)
  {
    PrivateStep(l, start, kernel, i, x);
  }

  // Node i puts x in the buffer of y.
  lemma {:induction false} ClassAgreesStep(l: Layout, start: Env, kernel: Kernel, i: nat, x: int, y: int)
    requires ReadyToRun(l) && InPlaceSafe(l.plan, Aliases(l.plan)) && PassesThrough(l, kernel) && Sized(l, start)
    requires i < |l.plan.graph.nodes| && x != y
    requires Live(l.plan.graph, x, i + 1) && Live(l.plan.graph, y, i + 1) && Writes(l.plan.graph, i, x)
    requires FindSharedTensor(Aliases(l.plan), x) == FindSharedTensor(Aliases(l.plan), y)
    ensures PrivateRun(l, start, kernel, i + 1)(x) == PrivateRun(l, start, kernel, i + 1)(y)
    decreases i, 2
  {
    hide CarriesOut, ValidPlacement, TemporariesDisjoint, PassesThrough, PrivateRun;
    var g, m := l.plan.graph, Aliases(l.plan);
    AliasMapIsSound(l.plan);
    JoinsUnchanged(l.plan, i, x, y);
    hide SoundAliases, InRange, WellFormed, InPlaceSafe, MadeBy;
    var input := SharedInput(l.plan, i);
    PassThroughCopies(l, start, kernel, i);
    PrivateStep(l, start, kernel, i, y);
    ClassAgrees(l, start, kernel, i, input, y);
  }

  // If the older tensor is still wanted, node i passed the buffer through.
  lemma JoinsUnchanged(p: Plan, i: nat, x: int, y: int)
    requires p.Valid() && WellFormed(p.graph) && i < |p.graph.nodes| && InPlaceSafe(p, Aliases(p))
    requires FindSharedTensor(Aliases(p), x) == FindSharedTensor(Aliases(p), y)
    requires x != y && Writes(p.graph, i, x) && Live(p.graph, y, i + 1)
    ensures MadeBy(p, Aliases(p), x, i) && PassesThroughAt(p, Aliases(p), i)
    ensures Live(p.graph, y, i) && Live(p.graph, SharedInput(p, i), i)
    ensures FindSharedTensor(Aliases(p), y) == FindSharedTensor(Aliases(p), SharedInput(p, i))
  {
    JoinsBuffer(p, i, x, y);
    assert Reads(p.graph, i, SharedInput(p, i));
  }

  // Two tensors in one buffer, the younger produced by node i: node i made it an alias.
  lemma JoinsBuffer(p: Plan, i: nat, x: int, y: int)
    requires p.Valid() && WellFormed(p.graph) && i < |p.graph.nodes|
    requires FindSharedTensor(Aliases(p), x) == FindSharedTensor(Aliases(p), y)
    requires x != y && Writes(p.graph, i, x) && Available(p.graph, y, i + 1)
    ensures MadeBy(p, Aliases(p), x, i)
    ensures !Writes(p.graph, i, y)
    ensures FindSharedTensor(Aliases(p), y) == FindSharedTensor(Aliases(p), SharedInput(p, i))
  {
    var m := Aliases(p);
    AliasMapIsSound(p);
    if x !in m {
      assert false;
    }
    var k :| MadeBy(p, m, x, k);
    assert k == i;
    OnlyFirstOutputShared(p, m, i, x, y);
  }

  // ---- The two runs side by side

  // Tensors whose value somebody still wants, and which have memory to keep it in.
  ghost predicate Wanted(l: Layout, x: int, i: nat) {
    Live(l.plan.graph, x, i) && (l.InArena(x) ==> Sourced(l.plan.graph, x))
  }

  ghost predicate Agree(l: Layout, mem: Memory, env: Env, i: nat) {
    forall x | Wanted(l, x, i) :: Read(l, mem, x) == env(x)
  }

  lemma TemporariesApart(l: Layout, i: nat, x: int, t: int)
    requires ReadyToRun(l) && i < |l.plan.graph.nodes| && UsesTemporary(l.plan.graph, i, t)
    requires Wanted(l, x, i + 1)
             || (Writes(l.plan.graph, i, x) && x != OPTIONAL_TENSOR)
    ensures Apart(l, x, t)
  {
    var g, m := l.plan.graph, Aliases(l.plan);
    AliasMapIsSound(l.plan);
    assert x != t && l.Owner(t) == t by {
      assert !Pinned(g, t) && !ReadFrom(g, t, i + 1);
    }
    if l.InArena(x) && l.InArena(t) {
      if l.Owner(x) != x {
        var reader := OwnerIsRead(l.plan, m, x);
      }
      assert l.ActiveAt(t, i) by { hide ValidPlacement; }
      if Writes(g, i, x) {
        WrittenIsActive(l, x, i);
      } else {
        WantedIsActive(l, x, i);
      }
      ActiveBuffersDisjoint(l, x, t, i);
    }
  }

  // An output y of node i shares no byte with x, unless both are kept in one buffer.
  lemma OutputApart(l: Layout, i: nat, x: int, y: int)
    requires ReadyToRun(l) && i < |l.plan.graph.nodes| && Writes(l.plan.graph, i, y) && x != y
    requires Wanted(l, x, i + 1) || Writes(l.plan.graph, i, x)
    requires l.InArena(x) && l.InArena(y) ==> l.Owner(x) != l.Owner(y)
    ensures Apart(l, x, y)
  {
    if l.InArena(x) && l.InArena(y) {
      WrittenIsActive(l, y, i);
      if Writes(l.plan.graph, i, x) {
        WrittenIsActive(l, x, i);
      } else {
        WantedIsActive(l, x, i);
      }
      ActiveBuffersDisjoint(l, x, y, i);
    }
  }

  lemma OwnerSharesRoot(l: Layout, x: int, y: int)
    requires l.plan.Valid() && WellFormed(l.plan.graph) && CarriesOut(l)
    requires l.InArena(x) && l.InArena(y) && l.Owner(x) == l.Owner(y)
    ensures FindSharedTensor(Aliases(l.plan), x) == FindSharedTensor(Aliases(l.plan), y)
    ensures l.Bytes(x) == l.Bytes(y)
  {
    AliasMapIsSound(l.plan);
  }

  // Later outputs of the node that produces x leave x alone.
  lemma SiblingsApart(l: Layout, i: nat, x: int, y: int)
    requires ReadyToRun(l) && i < |l.plan.graph.nodes| && x != y
    requires Writes(l.plan.graph, i, x) && Writes(l.plan.graph, i, y)
    ensures Apart(l, x, y)
  {
    AliasMapIsSound(l.plan);
    if l.InArena(x) && l.InArena(y) && l.Owner(x) == l.Owner(y) {
      var m := Aliases(l.plan);
      OwnerSharesRoot(l, x, y);
      if x in m {
        OnlyFirstOutputShared(l.plan, m, i, x, y);
      } else {
        OnlyFirstOutputShared(l.plan, m, i, y, x);
      }
      assert false;
    }
    OutputApart(l, i, x, y);
  }

  lemma ArgsAgree(l: Layout, mem: Memory, env: Env, i: nat)
    requires l.plan.Valid() && WellFormed(l.plan.graph) && CarriesOut(l) && i < |l.plan.graph.nodes|
    requires Agree(l, mem, env, i)
    ensures Args(l.plan.graph.nodes[i].inputs, x => Read(l, mem, x)) == Args(l.plan.graph.nodes[i].inputs, env)
  {
    var g := l.plan.graph;
    forall x | Reads(g, i, x)
      ensures Read(l, mem, x) == env(x)
    {
      assert Wanted(l, x, i);
    }
    assert forall j | 0 <= j < |g.nodes[i].inputs| && g.nodes[i].inputs[j] != OPTIONAL_TENSOR ::
        Reads(g, i, g.nodes[i].inputs[j]);
  }

  // What node i stores in x.
  lemma StepStores(l: Layout, mem: Memory, kernel: Kernel, scratch: Kernel, i: nat, j: nat)
    requires ReadyToRun(l) && i < |l.plan.graph.nodes|
    requires j < |l.plan.graph.nodes[i].outputs| && l.plan.graph.nodes[i].outputs[j] != OPTIONAL_TENSOR
    ensures var node := l.plan.graph.nodes[i];
      IsResult(Read(l, ArenaStep(l, mem, kernel, scratch, i), node.outputs[j]), kernel, i,
               Args(node.inputs, x => Read(l, mem, x)), j)
  {
    var g, node := l.plan.graph, l.plan.graph.nodes[i];
    var x := node.outputs[j];
    var args := Args(node.inputs, x => Read(l, mem, x));
    var clobbered := WriteAll(l, mem, scratch, i, args, node.temporaries, |node.temporaries|);
    forall j' | j < j' < |node.outputs| && node.outputs[j'] != OPTIONAL_TENSOR
      ensures Apart(l, x, node.outputs[j'])
    {
      assert Writes(g, i, x) && Writes(g, i, node.outputs[j']);
      SiblingsApart(l, i, x, node.outputs[j']);
    }
    WriteAllHere(l, clobbered, kernel, i, args, node.outputs, |node.outputs|, j, x);
  }

  // A wanted tensor that shares no buffer with the outputs of node i survives it.
  lemma StepKeeps(l: Layout, mem: Memory, kernel: Kernel, scratch: Kernel, i: nat, x: int)
    requires ReadyToRun(l) && i < |l.plan.graph.nodes| && Wanted(l, x, i + 1) && !Writes(l.plan.graph, i, x)
    requires forall y | Writes(l.plan.graph, i, y) && l.InArena(x) && l.InArena(y) :: l.Owner(x) != l.Owner(y)
    ensures Read(l, ArenaStep(l, mem, kernel, scratch, i), x) == Read(l, mem, x)
  {
    var g, node := l.plan.graph, l.plan.graph.nodes[i];
    var args := Args(node.inputs, x => Read(l, mem, x));
    var clobbered := WriteAll(l, mem, scratch, i, args, node.temporaries, |node.temporaries|);
    forall j | 0 <= j < |node.temporaries|
      ensures Apart(l, x, node.temporaries[j])
    {
      assert UsesTemporary(g, i, node.temporaries[j]);
      TemporariesApart(l, i, x, node.temporaries[j]);
    }
    forall j | 0 <= j < |node.outputs| && node.outputs[j] != OPTIONAL_TENSOR
      ensures Apart(l, x, node.outputs[j])
    {
      assert Writes(g, i, node.outputs[j]);
      OutputApart(l, i, x, node.outputs[j]);
    }
    WriteAllElsewhere(l, mem, scratch, i, args, node.temporaries, |node.temporaries|, x);
    WriteAllElsewhere(l, clobbered, kernel, i, args, node.outputs, |node.outputs|, x);
  }

  // A wanted tensor kept in the buffer of output y of node i is overwritten with y.
  lemma StepShares(l: Layout, mem: Memory, kernel: Kernel, scratch: Kernel, i: nat, x: int, y: int)
    requires ReadyToRun(l) && i < |l.plan.graph.nodes| && Wanted(l, x, i + 1) && !Writes(l.plan.graph, i, x)
    requires Writes(l.plan.graph, i, y) && l.InArena(x) && l.InArena(y) && l.Owner(x) == l.Owner(y)
    ensures Read(l, ArenaStep(l, mem, kernel, scratch, i), x)
            == Read(l, ArenaStep(l, mem, kernel, scratch, i), y)
  {
    OwnerSharesRoot(l, x, y);
  }

  // One node keeps the runs in agreement.
  lemma StepAgrees(l: Layout, start: Env, mem: Memory, kernel: Kernel, scratch: Kernel, i: nat)
    requires ReadyToRun(l) && InPlaceSafe(l.plan, Aliases(l.plan)) && PassesThrough(l, kernel) && Sized(l, start)
    requires i < |l.plan.graph.nodes| && Agree(l, mem, PrivateRun(l, start, kernel, i), i)
    ensures Agree(l, ArenaStep(l, mem, kernel, scratch, i), PrivateRun(l, start, kernel, i + 1), i + 1)
  {
    forall x | Wanted(l, x, i + 1)
      ensures Read(l, ArenaStep(l, mem, kernel, scratch, i), x) == PrivateRun(l, start, kernel, i + 1)(x)
    {
      if Writes(l.plan.graph, i, x) {
        OutputAgrees(l, start, mem, kernel, scratch, i, x);
      } else {
        UnwrittenAgrees(l, start, mem, kernel, scratch, i, x);
      }
    }
  }

  // A tensor that node i does not write keeps its value, even if its buffer is written.
  lemma UnwrittenAgrees(l: Layout, start: Env, mem: Memory, kernel: Kernel, scratch: Kernel, i: nat, x: int)
    requires ReadyToRun(l) && InPlaceSafe(l.plan, Aliases(l.plan)) && PassesThrough(l, kernel) && Sized(l, start)
    requires i < |l.plan.graph.nodes| && Agree(l, mem, PrivateRun(l, start, kernel, i), i)
    requires Wanted(l, x, i + 1) && !Writes(l.plan.graph, i, x)
    ensures Read(l, ArenaStep(l, mem, kernel, scratch, i), x) == PrivateRun(l, start, kernel, i + 1)(x)
  {
    hide Read, ArenaStep, CarriesOut;
    PrivateStep(l, start, kernel, i, x);
    assert Wanted(l, x, i);
    if y :| Writes(l.plan.graph, i, y) && l.InArena(x) && l.InArena(y) && l.Owner(x) == l.Owner(y) {
      OwnerSharesRoot(l, x, y);
      JoinsUnchanged(l.plan, i, y, x);
      StepShares(l, mem, kernel, scratch, i, x, y);
      OutputAgrees(l, start, mem, kernel, scratch, i, y);
      PassThroughCopies(l, start, kernel, i);
      ClassAgrees(l, start, kernel, i, x, SharedInput(l.plan, i));
    } else {
      StepKeeps(l, mem, kernel, scratch, i, x);
    }
  }

  lemma OutputAgrees(l: Layout, start: Env, mem: Memory, kernel: Kernel, scratch: Kernel, i: nat, x: int)
    requires ReadyToRun(l) && Sized(l, start)
    requires i < |l.plan.graph.nodes| && Agree(l, mem, PrivateRun(l, start, kernel, i), i)
    requires Writes(l.plan.graph, i, x)
    ensures Read(l, ArenaStep(l, mem, kernel, scratch, i), x) == PrivateRun(l, start, kernel, i + 1)(x)
  {
    var node := l.plan.graph.nodes[i];
    var j :| 0 <= j < |node.outputs| && node.outputs[j] == x;
    ArgsAgree(l, mem, PrivateRun(l, start, kernel, i), i);
    StepStores(l, mem, kernel, scratch, i, j);
    PrivateStep(l, start, kernel, i, x);
  }

  lemma StartsAgree(l: Layout, start: Memory, kernel: Kernel, scratch: Kernel)
    requires l.plan.Valid()
    ensures Agree(l, ArenaRun(l, start, kernel, scratch, 0), PrivateRun(l, StartEnv(l, start), kernel, 0), 0)
  {
  }

  lemma {:induction false} RunsAgree(l: Layout, start: Memory, kernel: Kernel, scratch: Kernel, i: nat)
    requires ReadyToRun(l) && InPlaceSafe(l.plan, Aliases(l.plan)) && PassesThrough(l, kernel)
    requires i <= |l.plan.graph.nodes|
    ensures Agree(l, ArenaRun(l, start, kernel, scratch, i), PrivateRun(l, StartEnv(l, start), kernel, i), i)
  {
    hide CarriesOut, ValidPlacement, TemporariesDisjoint, WellFormed, PassesThrough, InPlaceSafe, ArenaStep, Agree;
    if i == 0 {
      StartsAgree(l, start, kernel, scratch);
    } else {
      RunsAgree(l, start, kernel, scratch, i - 1);
      StepAgrees(l, StartEnv(l, start), ArenaRun(l, start, kernel, scratch, i - 1), kernel, scratch, i - 1);
    }
  }

  // Every node gets the inputs it would get with private buffers ...
  ghost predicate ReadsRight(l: Layout, start: Memory, kernel: Kernel, scratch: Kernel) {
    forall i, x | Reads(l.plan.graph, i, x) ::
      Read(l, ArenaRun(l, start, kernel, scratch, i), x) == PrivateRun(l, StartEnv(l, start), kernel, i)(x)
  }

  // ... and so do the users of the graph outputs.
  ghost predicate OutputsRight(l: Layout, start: Memory, kernel: Kernel, scratch: Kernel) {
    var g := l.plan.graph;
    forall x | x in g.outputs && x != OPTIONAL_TENSOR && (l.InArena(x) ==> Sourced(g, x)) ::
      Read(l, ArenaRun(l, start, kernel, scratch, |g.nodes|), x)
      == PrivateRun(l, StartEnv(l, start), kernel, |g.nodes|)(x)
  }

  ghost predicate PreservesMeaning(l: Layout, start: Memory, kernel: Kernel, scratch: Kernel) {
    ReadsRight(l, start, kernel, scratch) && OutputsRight(l, start, kernel, scratch)
  }

  // Memory planning preserves meaning, whatever the operators compute and wherever
  // the arena puts the buffers.
  lemma MemoryPlanningPreservesMeaning(l: Layout, start: Memory, kernel: Kernel, scratch: Kernel)
    requires ReadyToRun(l) && InPlaceSafe(l.plan, Aliases(l.plan)) && PassesThrough(l, kernel)
    ensures PreservesMeaning(l, start, kernel, scratch)
  {
    var g := l.plan.graph;
    forall i, x | Reads(g, i, x)
      ensures Read(l, ArenaRun(l, start, kernel, scratch, i), x) == PrivateRun(l, StartEnv(l, start), kernel, i)(x)
    {
      RunsAgree(l, start, kernel, scratch, i);
      assert Wanted(l, x, i);
    }
    RunsAgree(l, start, kernel, scratch, |g.nodes|);
    assert forall x | x in g.outputs && x != OPTIONAL_TENSOR && (l.InArena(x) ==> Sourced(g, x)) ::
        Wanted(l, x, |g.nodes|);
  }

  // ---- The documented contract of pass-through operators

  // The first output is the first input.
  ghost predicate CopiesFirst(l: Layout, kernel: Kernel)
    requires l.plan.Valid()
  {
    forall i | PassesThroughAt(l.plan, Aliases(l.plan), i) :: CopiesInput(kernel, i, 0)
  }

  ghost predicate SharesFirst(l: Layout)
    requires l.plan.Valid()
  {
    forall i | PassesThroughAt(l.plan, Aliases(l.plan), i) :: CandidateSlot(l.plan, i) == 0
  }

  const FIRST_INPUT: Kernel :=
    (i: nat, args: seq<Value>, k: nat, pos: nat) => if args != [] && pos < |args[0]| then args[0][pos] else 0

  // The planner picks the first input that may be shared, not the first input. So the
  // contract is enough exactly if the input it picks always is the first one.
  lemma DocumentedCopiesSuffice(l: Layout)
    requires l.plan.Valid()
    requires forall i | PassesThroughAt(l.plan, Aliases(l.plan), i) ::
               l.Bytes(l.plan.graph.nodes[i].outputs[0]) == l.Bytes(SharedInput(l.plan, i))
    ensures (forall kernel | CopiesFirst(l, kernel) :: PassesThrough(l, kernel)) <==> SharesFirst(l)
  {
    hide Aliases;
    if i :| PassesThroughAt(l.plan, Aliases(l.plan), i) && CandidateSlot(l.plan, i) != 0 {
      var slot := CandidateSlot(l.plan, i);
      var args: seq<Value> := seq(slot + 1, s => if s == slot then [1] else [0]);
      assert FIRST_INPUT(i, args, 0, 0) == 0 && args[slot][0] == 1;
      assert CopiesFirst(l, FIRST_INPUT) && !CopiesInput(FIRST_INPUT, i, slot);
    }
  }
}
