/**
  When a buffer has to exist: from the node that first needs it to the last node that
  reads any tensor kept in it. Reference counting finds exactly that interval.
 */
module Lifetimes {
  import opened TfLiteGraph
  import opened InPlaceSharing

  // Node i reads some tensor kept in buffer r.
  ghost predicate ReadsBuffer(g: Graph, m: AliasMap, i: int, r: int) {
    exists x :: Reads(g, i, x) && FindSharedTensor(m, x) == r
  }

  ghost predicate Produced(g: Graph, x: int) {
    exists k :: Writes(g, k, x)
  }

  function BufferReadsTo(s: seq<int>, m: AliasMap, j: nat, r: int): nat
    requires j <= |s|
  {
    if j == 0 then 0 else
    BufferReadsTo(s, m, j - 1, r)
    + (if s[j - 1] != OPTIONAL_TENSOR && FindSharedTensor(m, s[j - 1]) == r then 1 else 0)
  }

  // References to buffer r among the inputs of the first i nodes.
  function BufferReadCount(g: Graph, m: AliasMap, i: nat, r: int): nat
    requires i <= |g.nodes|
  {
    if i == 0 then 0 else
    BufferReadCount(g, m, i - 1, r) + BufferReadsTo(g.nodes[i - 1].inputs, m, |g.nodes[i - 1].inputs|, r)
  }

  lemma {:induction false} BufferReadsToPositive(s: seq<int>, m: AliasMap, j: nat, r: int)
    requires j <= |s|
    ensures BufferReadsTo(s, m, j, r) > 0 <==>
            exists x :: x in s[..j] && x != OPTIONAL_TENSOR && FindSharedTensor(m, x) == r
  {
    if j > 0 {
      BufferReadsToPositive(s, m, j - 1, r);
      assert s[..j] == s[..j - 1] + [s[j - 1]];
    }
  }

  lemma NodeReadsBuffer(g: Graph, m: AliasMap, i: nat, r: int)
    requires i < |g.nodes|
    ensures BufferReadCount(g, m, i + 1, r) > BufferReadCount(g, m, i, r) <==> ReadsBuffer(g, m, i, r)
  {
    var s := g.nodes[i].inputs;
    BufferReadsToPositive(s, m, |s|, r);
    assert s[..|s|] == s;
    if ReadsBuffer(g, m, i, r) {
      var x :| Reads(g, i, x) && FindSharedTensor(m, x) == r;
      assert x in s[..|s|];
    }
    if exists x :: x in s[..|s|] && x != OPTIONAL_TENSOR && FindSharedTensor(m, x) == r {
      var x :| x in s[..|s|] && x != OPTIONAL_TENSOR && FindSharedTensor(m, x) == r;
      assert Reads(g, i, x);
    }
  }

  // The count stands still exactly while nobody reads the buffer.
  lemma {:induction false} CountStandsStill(g: Graph, m: AliasMap, i: nat, k: nat, r: int)
    requires i <= k <= |g.nodes|
    ensures BufferReadCount(g, m, i, r) <= BufferReadCount(g, m, k, r)
    ensures BufferReadCount(g, m, i, r) == BufferReadCount(g, m, k, r) <==>
            forall d | i <= d < k :: !ReadsBuffer(g, m, d, r)
    decreases k - i
  {
    if i < k {
      CountStandsStill(g, m, i, k - 1, r);
      NodeReadsBuffer(g, m, k - 1, r);
    }
  }

  // Nobody reads a buffer before its owner is produced.
  lemma NoReadBeforeProduction(p: Plan, m: AliasMap, i: nat, r: int)
    requires p.Valid() && WellFormed(p.graph) && SoundAliases(p, m)
    requires Writes(p.graph, i, r)
    ensures BufferReadCount(p.graph, m, i + 1, r) == 0
  {
    var g := p.graph;
    forall d | 0 <= d < i + 1
      ensures !ReadsBuffer(g, m, d, r)
    {
      if ReadsBuffer(g, m, d, r) {
        assert false;
      }
    }
    CountStandsStill(g, m, 0, i + 1, r);
  }

  // First use: graph inputs and variables exist from the start, other tensors from
  // the node that produces them, and tensors nothing produces are not planned at all.
  ghost predicate ExactAllocation(g: Graph, allocNode: seq<int>, upTo: int) {
    forall x | 0 <= x < |allocNode| :: AllocatedAt(g, allocNode[x], x, upTo)
  }

  ghost predicate AllocatedAt(g: Graph, node: int, x: int, upTo: int) {
    && (x in g.inputs || x in g.variables ==> node == 0)
    && (forall k | k < upTo && Writes(g, k, x) :: node == k)
    && (x !in g.inputs && x !in g.variables && (forall k | k < upTo :: !Writes(g, k, x))
        ==> node == NOT_ASSIGNED)
  }

  // Last use: a produced buffer that is no graph input, output or variable is released
  // after the last node that reads any tensor kept in it; nothing else ever is.
  ghost predicate ReleasedAt(g: Graph, m: AliasMap, node: int, r: int) {
    if node == NOT_ASSIGNED
    then Pinned(g, r) || !Produced(g, r) || forall k :: !ReadsBuffer(g, m, k, r)
    else
      && !Pinned(g, r) && Produced(g, r)
      && ReadsBuffer(g, m, node, r)
      && forall k | node < k :: !ReadsBuffer(g, m, k, r)
  }

  ghost predicate ExactRelease(g: Graph, m: AliasMap, deallocNode: seq<int>, preserveAll: bool) {
    forall r | 0 <= r < |deallocNode| ::
      if preserveAll then deallocNode[r] == NOT_ASSIGNED else ReleasedAt(g, m, deallocNode[r], r)
  }

  // The tensors that node i makes the planner allocate.
  ghost predicate ExactQueue(g: Graph, queue: set<int>, i: int) {
    forall x :: x in queue <==>
      x != OPTIONAL_TENSOR && (Writes(g, i, x) || (i == 0 && (x in g.inputs || x in g.variables)))
  }

  // ... of which graph inputs and variables are queued before any node is looked at.
  ghost predicate InitialQueue(g: Graph, queue: set<int>, i: int) {
    forall x :: x in queue <==> x != OPTIONAL_TENSOR && i == 0 && (x in g.inputs || x in g.variables)
  }

  // x is queued at node k, not counting temporaries.
  ghost predicate StartsAt(g: Graph, x: int, k: int) {
    x != OPTIONAL_TENSOR && (Writes(g, k, x) || (k == 0 && (x in g.inputs || x in g.variables)))
  }

  // The queue of node k holds the tensors whose lifetime starts there, and possibly
  // temporaries of the node.
  ghost predicate QueueKept(g: Graph, queue: set<int>, k: int) {
    && (forall x | x in queue :: StartsAt(g, x, k) || UsesTemporary(g, k, x))
    && (forall x | StartsAt(g, x, k) :: x in queue)
  }

  // The planner's tables still are those planned for p: only temporaries have been
  // added and only aliases have been dropped since.
  ghost predicate PlanKept(p: Plan, aliases: AliasMap, allocNode: seq<int>, deallocNode: seq<int>,
                           queues: seq<set<int>>)
  {
    && p.Valid() && WellFormed(p.graph)
    && |allocNode| == |deallocNode| >= |p.tensors|
    && (forall x | 0 <= x < |allocNode| && (forall i :: !UsesTemporary(p.graph, i, x)) ::
          && AllocatedAt(p.graph, allocNode[x], x, |p.graph.nodes|)
          && (!p.preserveAll ==> ReleasedAt(p.graph, Aliases(p), deallocNode[x], x)))
    && (p.preserveAll ==> forall x | 0 <= x < |deallocNode| :: deallocNode[x] == NOT_ASSIGNED)
    && (forall x | x in aliases :: x in Aliases(p) && aliases[x] == Aliases(p)[x])
    && |queues| == (if p.graph.nodes == [] then 1 else |p.graph.nodes|)
    && (forall k | 0 <= k < |queues| :: QueueKept(p.graph, queues[k], k))
  }

  // An alias has no lifetime of its own: reads of it count for the owner.
  lemma AliasesAreNeverReleased(p: Plan, m: AliasMap, deallocNode: seq<int>)
    requires p.Valid() && WellFormed(p.graph) && SoundAliases(p, m)
    requires ExactRelease(p.graph, m, deallocNode, p.preserveAll)
    ensures forall x | x in m && 0 <= x < |deallocNode| :: deallocNode[x] == NOT_ASSIGNED
  {
    forall x | x in m && 0 <= x < |deallocNode|
      ensures deallocNode[x] == NOT_ASSIGNED
    {
      assert forall y :: FindSharedTensor(m, y) != x;
    }
  }

  lemma OutputsQueued(g: Graph, before: set<int>, after: set<int>, i: int)
    requires InitialQueue(g, before, i) && forall x :: x in after <==> x in before || Writes(g, i, x)
    ensures ExactQueue(g, after, i)
  {
  }

  lemma AllocatedNext(g: Graph, before: int, after: int, x: int, i: int)
    requires WellFormed(g) && AllocatedAt(g, before, x, i) && 0 <= i
    requires after == if Writes(g, i, x) then i else before
    ensures AllocatedAt(g, after, x, i + 1)
  {
  }

  // What holds of buffer r once c of its references have been dropped.
  ghost predicate ReleaseState(g: Graph, m: AliasMap, node: int, planned: bool, c: nat, r: int) {
    var total := BufferReadCount(g, m, |g.nodes|, r);
    && c <= total
    && (node != NOT_ASSIGNED <==> planned && PinCount(g, r) == 0 && total > 0 && c == total)
    && (node != NOT_ASSIGNED ==>
          && 0 <= node < |g.nodes|
          && ReadsBuffer(g, m, node, r)
          && BufferReadCount(g, m, node + 1, r) == total)
  }

  // Once every reference has been dropped the release nodes are exact.
  lemma ReleaseStateAtEnd(g: Graph, m: AliasMap, node: int, allocNode: int, r: int)
    requires AllocatedAt(g, allocNode, r, |g.nodes|) && |g.nodes| < NOT_ASSIGNED
    requires ReleaseState(g, m, node, allocNode != NOT_ASSIGNED, BufferReadCount(g, m, |g.nodes|, r), r)
    ensures ReleasedAt(g, m, node, r)
  {
    var n := |g.nodes|;
    PinnedIffCounted(g, r);
    CountStandsStill(g, m, 0, n, r);
    assert forall k | ReadsBuffer(g, m, k, r) :: 0 <= k < n;
    if node != NOT_ASSIGNED {
      CountStandsStill(g, m, node + 1, n, r);
      assert Produced(g, r);
    } else if Produced(g, r) {
      var k :| Writes(g, k, r);
      assert allocNode == k;
    }
  }

  // ---- Counting down

  // A tensor enters the plan unread.
  lemma NewlyPlanned(p: Plan, deallocNode: int, allocNode: int, count: int, i: nat, r: int)
    requires p.Valid() && WellFormed(p.graph) && i < |p.graph.nodes| && Writes(p.graph, i, r)
    requires CountState(p.graph, Aliases(p), NOT_ASSIGNED, deallocNode, count, i, 0, r)
    ensures CountState(p.graph, Aliases(p), allocNode, deallocNode, count, i, 0, r)
  {
    AliasMapIsSound(p);
    NoReadBeforeProduction(p, Aliases(p), i, r);
    CountStandsStill(p.graph, Aliases(p), i, i + 1, r);
    hide WellFormed;
  }

  // References to buffer r dropped by the first i nodes and the first j inputs of node i.
  ghost function Dropped(g: Graph, m: AliasMap, i: nat, j: nat, r: int): nat
    requires i <= |g.nodes| && (j == 0 || (i < |g.nodes| && j <= |g.nodes[i].inputs|))
  {
    BufferReadCount(g, m, i, r) + (if j == 0 then 0 else BufferReadsTo(g.nodes[i].inputs, m, j, r))
  }

  ghost predicate CountState(g: Graph, m: AliasMap, allocNode: int, deallocNode: int, count: int,
                             i: nat, j: nat, r: int)
    requires i <= |g.nodes| && (j == 0 || (i < |g.nodes| && j <= |g.nodes[i].inputs|))
  {
    var c := Dropped(g, m, i, j, r);
    && count == PinCount(g, r) + BufferReadCount(g, m, |g.nodes|, r) - c
    && (WellFormed(g) ==> ReleaseState(g, m, deallocNode, allocNode != NOT_ASSIGNED, c, r))
  }

  lemma CountedAnyway(g: Graph, m: AliasMap, allocNode: int, deallocNode: int, count: int, i: nat, j: nat, r: int,
                      allocNode': int)
    requires i <= |g.nodes| && (j == 0 || (i < |g.nodes| && j <= |g.nodes[i].inputs|)) && !WellFormed(g)
    requires CountState(g, m, allocNode, deallocNode, count, i, j, r)
    ensures CountState(g, m, allocNode', deallocNode, count, i, j, r)
  {
    hide WellFormed;
  }

  // Input j of node i gives up its reference to buffer r; the last reference to go
  // releases the buffer.
  lemma DropReference(g: Graph, m: AliasMap, allocNode: int, deallocNode: int, count: int, i: nat, j: nat, r: int)
    requires i < |g.nodes| < NOT_ASSIGNED && j < |g.nodes[i].inputs| && g.nodes[i].inputs[j] != OPTIONAL_TENSOR
    requires FindSharedTensor(m, g.nodes[i].inputs[j]) == r
    requires CountState(g, m, allocNode, deallocNode, count, i, j, r)
    ensures WellFormed(g) ==> deallocNode == NOT_ASSIGNED
    ensures var released := if count == 1 && allocNode != NOT_ASSIGNED then i else deallocNode;
      CountState(g, m, allocNode, released, count - 1, i, j + 1, r)
  {
    DropIsCounted(g, m, i, j, r);
    hide WellFormed;
  }

  // Buffers that input j does not refer to keep their counts.
  lemma OtherReference(g: Graph, m: AliasMap, allocNode: int, deallocNode: int, count: int, i: nat, j: nat, r: int)
    requires i < |g.nodes| && j < |g.nodes[i].inputs|
    requires g.nodes[i].inputs[j] == OPTIONAL_TENSOR || FindSharedTensor(m, g.nodes[i].inputs[j]) != r
    requires CountState(g, m, allocNode, deallocNode, count, i, j, r)
    ensures CountState(g, m, allocNode, deallocNode, count, i, j + 1, r)
  {
    hide WellFormed, ReleaseState;
    assert BufferReadsTo(g.nodes[i].inputs, m, 0, r) == 0;
    assert BufferReadsTo(g.nodes[i].inputs, m, j + 1, r) == BufferReadsTo(g.nodes[i].inputs, m, j, r);
    assert Dropped(g, m, i, j + 1, r) == Dropped(g, m, i, j, r);
  }

  // Dropping the reference that input j of node i holds on buffer r.
  lemma DropIsCounted(g: Graph, m: AliasMap, i: nat, j: nat, r: int)
    requires i < |g.nodes| && j < |g.nodes[i].inputs| && g.nodes[i].inputs[j] != OPTIONAL_TENSOR
    requires FindSharedTensor(m, g.nodes[i].inputs[j]) == r
    ensures ReadsBuffer(g, m, i, r)
    ensures BufferReadCount(g, m, i, r) + BufferReadsTo(g.nodes[i].inputs, m, j + 1, r)
            <= BufferReadCount(g, m, i + 1, r) <= BufferReadCount(g, m, |g.nodes|, r)
  {
    assert Reads(g, i, g.nodes[i].inputs[j]);
    BufferReadsToMonotone(g.nodes[i].inputs, m, j + 1, |g.nodes[i].inputs|, r);
    CountStandsStill(g, m, i + 1, |g.nodes|, r);
  }

  lemma {:induction false} BufferReadsToMonotone(s: seq<int>, m: AliasMap, j: nat, k: nat, r: int)
    requires j <= k <= |s|
    ensures BufferReadsTo(s, m, j, r) <= BufferReadsTo(s, m, k, r)
    decreases k - j
  {
    if j < k {
      BufferReadsToMonotone(s, m, j, k - 1, r);
    }
  }
}
