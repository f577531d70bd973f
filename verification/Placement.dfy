/**
  The arena invariant over the planner's memory records: buffers in use at the same
  time share no byte.
 */
module Placement {
  import opened TfLiteGraph
  import opened InPlaceSharing
  import opened Lifetimes
  import opened SimpleMemoryArena

  // A plain tensor that shares a buffer goes on doing so as long as the owner is an
  // arena tensor of the same size.
  ghost predicate KeepsSharing(tensors: seq<Tensor>, aliases: AliasMap, x: int) {
    && x in aliases && 0 <= x < |tensors| && 0 <= aliases[x] < |tensors|
    && tensors[aliases[x]].allocationType == ArenaRw
    && tensors[aliases[x]].bytes == tensors[x].bytes
  }

  // Some node from first to last has x in its queue.
  ghost predicate Queued(queues: seq<set<int>>, x: int, first: int, last: int) {
    exists k :: 0 <= k < |queues| && first <= k <= last && x in queues[k]
  }

  // A tensor is queued where its lifetime starts, and nowhere else.
  ghost predicate QueuedAtFirstUse(queues: seq<set<int>>, allocNode: seq<int>) {
    forall k | 0 <= k < |queues| :: forall x | x in queues[k] :: 0 <= x < |allocNode| && allocNode[x] == k
  }

  // x is queued at its first use, which is not before `floor`.
  ghost predicate StartsFrom(allocNode: seq<int>, queues: seq<set<int>>, x: int, floor: int) {
    && 0 <= x < |allocNode|
    && floor <= allocNode[x] < |queues| <= NOT_ASSIGNED
    && 0 <= allocNode[x] && x in queues[allocNode[x]]
  }

  datatype Pointer = Null | InArena(address: int) | InPersistentArena(address: int) | Foreign

  // What the system allows when the arenas ask for memory.
  datatype Grant = Grant(granted: bool, newBase: int, persistentGranted: bool, persistentBase: int)

  // A memory record, and whether it is one of the persistent arena.
  datatype Holding = Holding(record: Alloc, persistent: bool)

  function HoldingOf(allocs: seq<Alloc>, persistent: set<int>, x: int): Holding {
    Holding(if 0 <= x < |allocs| then allocs[x] else NO_ALLOC, x in persistent)
  }

  // What x holds after it has been dealt with.
  ghost predicate Settled(tensors: seq<Tensor>, allocNode: seq<int>, deallocNode: seq<int>,
                          x: int, aliases: AliasMap, before: Holding, after: Holding)
    requires |allocNode| == |deallocNode| == |tensors| && 0 <= x < |tensors|
  {
    if KeepsSharing(tensors, aliases, x) then after == before
    else if tensors[x].allocationType == ArenaRw then
      after == Holding(Alloc(after.record.offset, tensors[x].bytes, x, allocNode[x], deallocNode[x]), false)
    else if before.record.size == 0 && tensors[x].bytes > 0 then
      after == Holding(Alloc(after.record.offset, tensors[x].bytes, x, allocNode[x], NOT_ASSIGNED), true)
    else after == before
  }

  // Persistent memory is given once.
  lemma SettledKeeps(tensors: seq<Tensor>, allocNode: seq<int>, deallocNode: seq<int>,
                     x: int, aliases: AliasMap, before: Holding, after: Holding)
    requires |allocNode| == |deallocNode| == |tensors| && 0 <= x < |tensors|
    ensures tensors[x].allocationType == ArenaRwPersistent && before.record.size > 0 ==>
              (Settled(tensors, allocNode, deallocNode, x, aliases, before, after) ==> after == before)
  {
  }

  // AreTensorsAllocatedInSameArena.
  predicate SameArena(tensors: seq<Tensor>, root: int, x: int) {
    && 0 <= root < |tensors| && 0 <= x < |tensors|
    && tensors[root].allocationType == tensors[x].allocationType
    && (tensors[x].allocationType == ArenaRw || tensors[x].allocationType == ArenaRwPersistent)
  }

  predicate NeedsMemory(tensor: Tensor, record: Alloc) {
    (tensor.allocationType == ArenaRw && record.size < tensor.bytes)
    || tensor.allocationType == ArenaRwPersistent
  }

  lemma NeedsArena()
    ensures forall tensor, record | NeedsMemory(tensor, record) ::
              tensor.allocationType == ArenaRw || tensor.allocationType == ArenaRwPersistent
  {
  }

  // x has a record of a buffer in the arena; `persistent` are the tensors whose records
  // are of buffers in the persistent arena, whatever their types are now.
  ghost predicate Recorded(persistent: set<int>, allocs: seq<Alloc>, x: int) {
    0 <= x < |allocs| && x !in persistent && allocs[x].size > 0
  }

  ghost predicate PersistentRecorded(persistent: set<int>, allocs: seq<Alloc>, x: int) {
    0 <= x < |allocs| && x in persistent && allocs[x].size > 0
  }

  // Only arena tensors have buffers in the arena.
  ghost predicate ArenaTensorsOnly(tensors: seq<Tensor>, persistent: set<int>, allocs: seq<Alloc>) {
    forall x | Recorded(persistent, allocs, x) :: x < |tensors| && tensors[x].allocationType == ArenaRw
  }

  ghost predicate Spread(persistent: set<int>, allocs: seq<Alloc>, active: seq<Alloc>, highWaterMark: nat, floor: int) {
    && (forall x | Recorded(persistent, allocs, x) ::
          allocs[x].tensor == x && allocs[x].offset + allocs[x].size <= highWaterMark)
    && (forall x | Recorded(persistent, allocs, x) && floor <= allocs[x].lastNode :: allocs[x] in active)
    && (forall x, y | Recorded(persistent, allocs, x) && Recorded(persistent, allocs, y) && x != y ::
          allocs[x].Meets(allocs[y].firstNode, allocs[y].lastNode) ==>
            allocs[x].DisjointFrom(allocs[y].offset, allocs[y].size))
  }

  // ... and no arena tensor has kept a buffer in the persistent arena.
  ghost predicate NothingMisplaced(tensors: seq<Tensor>, persistent: set<int>, allocs: seq<Alloc>) {
    forall x | PersistentRecorded(persistent, allocs, x) && x < |tensors| :: tensors[x].allocationType != ArenaRw
  }

  // A buffer in the arena that the type asks for.
  lemma PlacedRight(tensors: seq<Tensor>, persistent: set<int>, allocs: seq<Alloc>, x: int, record: Alloc,
                    persistent': set<int>)
    requires 0 <= x < |allocs| == |tensors|
    requires persistent' == if tensors[x].allocationType == ArenaRw then persistent - {x} else persistent + {x}
    ensures NothingMisplaced(tensors, persistent, allocs) ==> NothingMisplaced(tensors, persistent', allocs[x := record])
    ensures ArenaTensorsOnly(tensors, persistent, allocs) ==> ArenaTensorsOnly(tensors, persistent', allocs[x := record])
  {
    var allocs' := allocs[x := record];
    assert forall y | y != x :: PersistentRecorded(persistent', allocs', y) <==> PersistentRecorded(persistent, allocs, y);
    assert forall y | y != x :: Recorded(persistent', allocs', y) <==> Recorded(persistent, allocs, y);
  }

  // Memory is recorded with the node in whose queue the tensor is.
  ghost predicate RecordsQueued(allocs: seq<Alloc>, queues: seq<set<int>>) {
    forall x | 0 <= x < |allocs| && allocs[x].size > 0 ::
      0 <= allocs[x].firstNode < |queues| && x in queues[allocs[x].firstNode]
  }

  lemma RecordIsQueued(allocs: seq<Alloc>, queues: seq<set<int>>, x: int, record: Alloc)
    requires RecordsQueued(allocs, queues) && 0 <= x < |allocs|
    requires 0 <= record.firstNode < |queues| && x in queues[record.firstNode]
    ensures RecordsQueued(allocs[x := record], queues)
  {
  }

  // New entries of the table hold no records.
  lemma SameRecords(persistent: set<int>, before: seq<Alloc>, after: seq<Alloc>)
    requires before <= after && forall x | |before| <= x < |after| :: after[x] == NO_ALLOC
    ensures forall x :: Recorded(persistent, after, x) <==> Recorded(persistent, before, x)
    ensures forall x :: PersistentRecorded(persistent, after, x) <==> PersistentRecorded(persistent, before, x)
    ensures forall x | 0 <= x < |before| :: after[x] == before[x]
    ensures forall a | a in after :: a in before || a == NO_ALLOC
  {
  }

  lemma SpreadInGrownTable(persistent: set<int>, before: seq<Alloc>, after: seq<Alloc>, active: seq<Alloc>,
                           highWaterMark: nat, persistentActive: seq<Alloc>, persistentMark: nat)
    requires before <= after && forall x | |before| <= x < |after| :: after[x] == NO_ALLOC
    ensures forall floor | Spread(persistent, before, active, highWaterMark, floor) ::
              Spread(persistent, after, active, highWaterMark, floor)
    ensures PersistentSpread(persistent, before, persistentActive, persistentMark) ==>
              PersistentSpread(persistent, after, persistentActive, persistentMark)
  {
    SameRecords(persistent, before, after);
    hide Recorded, PersistentRecorded;
  }

  lemma TablesGrow(tensors: seq<Tensor>, persistent: set<int>, before: seq<Alloc>, after: seq<Alloc>,
                   queues: seq<set<int>>, active: seq<Alloc>, persistentActive: seq<Alloc>, alignment: nat)
    requires before <= after && forall x | |before| <= x < |after| :: after[x] == NO_ALLOC
    ensures RecordsQueued(before, queues) ==> RecordsQueued(after, queues)
    ensures ArenaTensorsOnly(tensors, persistent, before) ==> ArenaTensorsOnly(tensors, persistent, after)
    ensures NothingMisplaced(tensors, persistent, before) ==> NothingMisplaced(tensors, persistent, after)
    ensures forall highest: nat | EndsBelow(before, highest) :: EndsBelow(after, highest)
    ensures Tidy(before, active, persistentActive, alignment) ==> Tidy(after, active, persistentActive, alignment)
  {
    SameRecords(persistent, before, after);
    assert alignment > 0 ==> 0 % alignment == 0;
  }

  // A newly placed buffer joins those already placed.
  lemma SpreadGrows(persistent: set<int>, allocs: seq<Alloc>, active: seq<Alloc>, highWaterMark: nat, floor: int,
                    x: int, record: Alloc, active': seq<Alloc>, highWaterMark': nat)
    requires Spread(persistent, allocs, active, highWaterMark, floor)
    requires 0 <= x < |allocs| && record.tensor == x && floor <= record.firstNode
    requires record.size > 0 ==>
               && DisjointFromMeeting(active, record.offset, record.size, record.firstNode, record.lastNode)
               && record in multiset(active')
               && record.offset + record.size <= highWaterMark'
    requires highWaterMark <= highWaterMark' && forall a | a in active :: a in multiset(active')
    ensures Spread(persistent - {x}, allocs[x := record], active', highWaterMark', floor)
  {
    var allocs', arena' := allocs[x := record], persistent - {x};
    forall y, z | Recorded(arena', allocs', y) && Recorded(arena', allocs', z) && y != z
                  && allocs'[y].Meets(allocs'[z].firstNode, allocs'[z].lastNode)
      ensures allocs'[y].DisjointFrom(allocs'[z].offset, allocs'[z].size)
    {
      if z == x {
        assert Recorded(persistent, allocs, y);
        assert allocs[y] in active;
      } else if y == x {
        assert Recorded(persistent, allocs, z);
        assert allocs[z] in active;
      } else {
        assert Recorded(persistent, allocs, y) && Recorded(persistent, allocs, z);
      }
    }
    forall y | Recorded(arena', allocs', y) && y != x
      ensures Recorded(persistent, allocs, y)
    {
    }
  }

  lemma PersistentSpreadGrows(persistent: set<int>, allocs: seq<Alloc>, active: seq<Alloc>, highWaterMark: nat,
                              x: int, record: Alloc, active': seq<Alloc>, highWaterMark': nat)
    requires PersistentSpread(persistent, allocs, active, highWaterMark)
    requires highWaterMark <= highWaterMark' && record.offset + record.size <= highWaterMark'
    requires 0 <= x < |allocs| && record.firstNode <= NOT_ASSIGNED == record.lastNode
    requires DisjointFromMeeting(active, record.offset, record.size, record.firstNode, record.lastNode)
    requires record in multiset(active') && forall a | a in active :: a in multiset(active')
    ensures PersistentSpread(persistent + {x}, allocs[x := record], active', highWaterMark')
  {
    var allocs' := allocs[x := record];
    forall y | PersistentRecorded(persistent + {x}, allocs', y) && y != x
      ensures PersistentRecorded(persistent, allocs, y)
    {
    }
  }

  // Persistent buffers never go away, so all of them are disjoint.
  ghost predicate PersistentSpread(persistent: set<int>, allocs: seq<Alloc>, active: seq<Alloc>, highWaterMark: nat) {
    && (forall x | PersistentRecorded(persistent, allocs, x) ::
          && allocs[x] in active && allocs[x].firstNode <= NOT_ASSIGNED == allocs[x].lastNode
          && allocs[x].offset + allocs[x].size <= highWaterMark)
    && (forall x, y | PersistentRecorded(persistent, allocs, x) && PersistentRecorded(persistent, allocs, y) && x != y ::
          allocs[x].DisjointFrom(allocs[y].offset, allocs[y].size))
  }

  // The two arenas do not interfere: a persistent buffer leaves the arena alone, and the
  // other way round.
  lemma SpreadIgnores(persistent: set<int>, allocs: seq<Alloc>, active: seq<Alloc>, highWaterMark: nat, floor: int,
                      x: int, record: Alloc)
    requires Spread(persistent, allocs, active, highWaterMark, floor) && 0 <= x < |allocs|
    ensures Spread(persistent + {x}, allocs[x := record], active, highWaterMark, floor)
  {
    assert forall y | Recorded(persistent + {x}, allocs[x := record], y) :: Recorded(persistent, allocs, y);
  }

  lemma PersistentSpreadIgnores(persistent: set<int>, allocs: seq<Alloc>, active: seq<Alloc>, highWaterMark: nat,
                                x: int, record: Alloc)
    requires PersistentSpread(persistent, allocs, active, highWaterMark) && 0 <= x < |allocs|
    ensures PersistentSpread(persistent - {x}, allocs[x := record], active, highWaterMark)
  {
    assert forall y | PersistentRecorded(persistent - {x}, allocs[x := record], y) ::
        PersistentRecorded(persistent, allocs, y);
  }

  // ---- Room for more buffers

  // No buffer reaches beyond highest; at most count more come, none larger than largest.
  datatype Room = Room(highest: nat, largest: nat, count: nat) {
    predicate Suffices(alignment: nat) {
      highest + count * (alignment + largest) <= SIZE_MAX
    }

    // Once one of the buffers has been placed.
    function After(alignment: nat): (room: Room)
      requires count > 0
      ensures room.Top(alignment) == Top(alignment)
    {
      assert count * (alignment + largest) == (count - 1) * (alignment + largest) + (alignment + largest);
      Room(highest + alignment + largest, largest, count - 1)
    }

    // How far the buffers reach once all of them have been placed.
    function Top(alignment: nat): nat {
      highest + count * (alignment + largest)
    }

    function Filled(alignment: nat): Room {
      Room(Top(alignment), largest, 0)
    }
  }

  predicate EndsBelow(active: seq<Alloc>, highest: nat) {
    forall a | a in active :: a.offset + a.size <= highest
  }

  lemma RoomForOne(room: Room, alignment: nat, size: nat, active: seq<Alloc>)
    requires room.count > 0 && room.Suffices(alignment) && size <= room.largest && EndsBelow(active, room.highest)
    ensures Roomy(active, alignment + size) && room.After(alignment).Suffices(alignment)
  {
    var each := alignment + room.largest;
    assert room.count * each == (room.count - 1) * each + each;
    assert (room.count - 1) * each >= 0;
  }

  lemma StaysBelow(room: Room, alignment: nat, active: seq<Alloc>, a: Alloc, first: int, last: int)
    requires alignment > 0 && room.count > 0 && EndsBelow(active, room.highest) && 0 < a.size <= room.largest
    requires BestOffset(active, a.offset, alignment, a.size, first, last)
    ensures EndsBelow(InsertByOffset(active, a), room.After(alignment).highest)
    ensures a.offset + a.size <= room.After(alignment).highest
  {
    OffsetBelow(active, a.offset, alignment, a.size, first, last, room.highest);
    InsertedMembers(active, a);
  }

  lemma RecordEndsBelow(allocs: seq<Alloc>, x: int, record: Alloc, highest: nat)
    requires EndsBelow(allocs, highest) && 0 <= x < |allocs| && record.offset + record.size <= highest
    ensures EndsBelow(allocs[x := record], highest)
  {
    forall a | a in allocs[x := record]
      ensures a == record || a in allocs
    {
    }
  }

  function QueueLength(queues: seq<set<int>>, first: int, last: int): nat
    decreases last - first
  {
    if last < first then 0
    else QueueLength(queues, first, last - 1) + if 0 <= last < |queues| then |queues[last]| else 0
  }

  // A tensor is queued once, so there are no more entries than tensors.
  lemma QueueLengthBelow(queues: seq<set<int>>, allocNode: seq<int>, first: int, last: int)
    requires QueuedAtFirstUse(queues, allocNode)
    ensures QueueLength(queues, first, last) <= |allocNode|
  {
    SubsetIsSmaller(QueuedSet(queues, allocNode, first, last), Below(|allocNode|));
  }

  ghost function QueuedSet(queues: seq<set<int>>, allocNode: seq<int>, first: int, last: int): (s: set<int>)
    requires QueuedAtFirstUse(queues, allocNode)
    ensures |s| == QueueLength(queues, first, last)
    ensures forall x | x in s :: 0 <= x < |allocNode| && allocNode[x] <= last
    decreases last - first
  {
    if last < first then {}
    else
      var s := QueuedSet(queues, allocNode, first, last - 1);
      if 0 <= last < |queues| then
        assert forall x | x in queues[last] :: x !in s;
        s + queues[last]
      else s
  }

  ghost function Below(n: nat): (s: set<int>)
    ensures |s| == n && forall x :: x in s <==> 0 <= x < n
  {
    if n == 0 then {} else Below(n - 1) + {n - 1}
  }

  lemma SubsetIsSmaller(s: set<int>, t: set<int>)
    requires s <= t
    ensures |s| <= |t|
  {
    assert t == s + (t - s);
  }

  // The largest tensor of the table.
  function LargestTensor(tensors: seq<Tensor>): (largest: nat)
    ensures forall t | t in tensors :: t.bytes <= largest
    ensures largest == 0 || exists t :: t in tensors && t.bytes == largest
  {
    if tensors == [] then 0
    else
      var rest := LargestTensor(tensors[1..]);
      if tensors[0].bytes > rest then tensors[0].bytes else rest
  }

  // ---- Multiples of the alignment

  // All offsets are multiples of the alignment, and records of no bytes are at offset 0.
  predicate Tidy(allocs: seq<Alloc>, active: seq<Alloc>, persistentActive: seq<Alloc>, alignment: nat) {
    && (forall a | a in allocs :: a.size == 0 ==> a.offset == 0)
    && (alignment > 0 ==>
          AllAligned(allocs, alignment) && AllAligned(active, alignment) && AllAligned(persistentActive, alignment))
  }

  lemma ZeroIsAligned(alignment: nat)
    requires alignment > 0
    ensures 0 % alignment == 0
  {
  }

  lemma TidyRecord(allocs: seq<Alloc>, active: seq<Alloc>, persistentActive: seq<Alloc>, alignment: nat,
                   x: int, record: Alloc)
    requires Tidy(allocs, active, persistentActive, alignment) && 0 <= x < |allocs|
    requires alignment > 0 ==> record.offset % alignment == 0
    requires record.size == 0 ==> record.offset == 0
    ensures Tidy(allocs[x := record], active, persistentActive, alignment)
  {
    forall a | a in allocs[x := record]
      ensures a == record || a in allocs
    {
    }
  }

  // The aliases that are left once the listed tensors have been dealt with.
  ghost function AliasesAfter(tensors: seq<Tensor>, aliases: AliasMap, done: seq<int>): AliasMap {
    map x | x in aliases && (x !in done || KeepsSharing(tensors, aliases, x)) :: aliases[x]
  }

  lemma NoneDropped(tensors: seq<Tensor>, aliases: AliasMap)
    ensures AliasesAfter(tensors, aliases, []) == aliases
  {
  }

  // An arena only forgets buffers that are not needed from `floor` on.
  lemma SpreadAfterPurge(persistent: set<int>, allocs: seq<Alloc>, active: seq<Alloc>, active': seq<Alloc>,
                         highWaterMark: nat, floor: int, floor': int)
    requires Spread(persistent, allocs, active, highWaterMark, floor) && floor <= floor'
    requires forall a | a in active && a.tensor != -1 && floor' <= a.lastNode :: a in active'
    ensures Spread(persistent, allocs, active', highWaterMark, floor')
  {
  }

  lemma KeepsSharingAfter(tensors: seq<Tensor>, aliases: AliasMap, done: seq<int>, x: int)
    ensures KeepsSharing(tensors, AliasesAfter(tensors, aliases, done), x)
            <==> KeepsSharing(tensors, aliases, x)
    ensures AliasesAfter(tensors, aliases, done + [x])
            == if KeepsSharing(tensors, aliases, x) then AliasesAfter(tensors, aliases, done)
               else AliasesAfter(tensors, aliases, done) - {x}
  {
  }

  // ---- The plan survives what execution does to the tables

  lemma PlanKeptGrows(p: Plan, aliases: AliasMap, allocNode: seq<int>, deallocNode: seq<int>,
                      allocNode': seq<int>, deallocNode': seq<int>, queues: seq<set<int>>)
    requires PlanKept(p, aliases, allocNode, deallocNode, queues)
    requires |allocNode'| == |deallocNode'| && allocNode <= allocNode' && deallocNode <= deallocNode'
    requires forall x | |allocNode| <= x < |allocNode'| :: allocNode'[x] == deallocNode'[x] == NOT_ASSIGNED
    ensures PlanKept(p, aliases, allocNode', deallocNode', queues)
  {
    hide WellFormed;
    forall x | |allocNode| <= x < |allocNode'|
      ensures AllocatedAt(p.graph, NOT_ASSIGNED, x, |p.graph.nodes|)
      ensures ReleasedAt(p.graph, Aliases(p), NOT_ASSIGNED, x)
    {
      UnknownTensor(p.graph, |p.tensors|, x);
    }
    hide AllocatedAt, ReleasedAt, InRange;
    assert forall x | 0 <= x < |allocNode| :: allocNode'[x] == allocNode[x] && deallocNode'[x] == deallocNode[x];
  }

  lemma QueuesMatchGrows(queues: seq<set<int>>, allocNode: seq<int>, allocNode': seq<int>)
    requires QueuedAtFirstUse(queues, allocNode) && allocNode <= allocNode'
    ensures QueuedAtFirstUse(queues, allocNode')
  {
  }

  // A tensor beyond the table at planning time does not occur in the graph.
  lemma UnknownTensor(g: Graph, numTensors: nat, x: int)
    requires InRange(g, numTensors) && numTensors <= x
    ensures x !in g.inputs && x !in g.variables && !Produced(g, x)
  {
  }

  lemma PlanKeptWithTemporaries(p: Plan, aliases: AliasMap, allocNode: seq<int>, deallocNode: seq<int>,
                                queues: seq<set<int>>, allocNode': seq<int>, deallocNode': seq<int>,
                                queues': seq<set<int>>, first: int, last: int, numTensors: nat)
    requires PlanKept(p, aliases, allocNode, deallocNode, queues) && QueuedAtFirstUse(queues, allocNode)
    requires TemporariesDisjoint(p.graph, numTensors)
    requires |allocNode'| == |deallocNode'| == |allocNode| == numTensors && |queues'| == |queues|
    requires forall x | 0 <= x < numTensors && (forall i | first <= i <= last :: !UsesTemporary(p.graph, i, x)) ::
               allocNode'[x] == allocNode[x] && deallocNode'[x] == deallocNode[x]
    requires forall k | 0 <= k < |queues| ::
               queues'[k] == queues[k] + (if first <= k <= last then TemporariesOf(p.graph, k) else {})
    requires forall i, x | first <= i <= last && UsesTemporary(p.graph, i, x) ::
               && 0 <= x < numTensors && allocNode'[x] == i
               && deallocNode'[x] == if p.preserveAll then deallocNode[x] else i
    ensures PlanKept(p, aliases, allocNode', deallocNode', queues') && QueuedAtFirstUse(queues', allocNode')
  {
    var g := p.graph;
    forall k, x | 0 <= k < |queues'| && x in queues'[k]
      ensures 0 <= x < numTensors && allocNode'[x] == k
    {
      if x !in queues[k] {
        assert UsesTemporary(g, k, x);
      } else if i :| first <= i <= last && UsesTemporary(g, i, x) {
        assert QueueKept(g, queues[k], k);
        assert !Writes(g, k, x) && !Pinned(g, x);
        assert UsesTemporary(g, k, x);
        assert i == k;
      }
    }
    forall k | 0 <= k < |queues'|
      ensures QueueKept(g, queues'[k], k)
    {
      assert QueueKept(g, queues[k], k);
    }
    hide AllocatedAt, ReleasedAt, InRange, WellFormed, TemporariesDisjoint;
  }

  lemma DroppingAliasesKeepsPlan(p: Plan, aliases: AliasMap, aliases': AliasMap, allocNode: seq<int>,
                                 deallocNode: seq<int>, queues: seq<set<int>>)
    requires PlanKept(p, aliases, allocNode, deallocNode, queues)
    requires forall x | x in aliases' :: x in aliases && aliases'[x] == aliases[x]
    ensures PlanKept(p, aliases', allocNode, deallocNode, queues)
  {
  }

  // ---- Forgetting everything after a node

  // The arena record of a tensor first used after the node.
  predicate Erased(tensors: seq<Tensor>, allocs: seq<Alloc>, x: int, node: int)
    requires 0 <= x < |allocs| <= |tensors|
  {
    allocs[x].firstNode > node && allocs[x].size > 0 && tensors[x].allocationType == ArenaRw
  }

  // Records are kept or erased.
  ghost predicate Shrinks(before: seq<Alloc>, after: seq<Alloc>) {
    |before| == |after| && forall x | 0 <= x < |after| :: after[x] == before[x] || after[x] == NO_ALLOC
  }

  lemma ShrunkTable(tensors: seq<Tensor>, persistent: set<int>, before: seq<Alloc>, after: seq<Alloc>)
    requires Shrinks(before, after)
    ensures forall a | a in after :: a in before || a == NO_ALLOC
    ensures ArenaTensorsOnly(tensors, persistent, before) ==> ArenaTensorsOnly(tensors, persistent, after)
    ensures NothingMisplaced(tensors, persistent, before) ==> NothingMisplaced(tensors, persistent, after)
    ensures forall x | Recorded(persistent, after, x) :: Recorded(persistent, before, x) && after[x] == before[x]
  {
    forall a | a in after
      ensures a in before || a == NO_ALLOC
    {
      var x :| 0 <= x < |after| && after[x] == a;
      assert before[x] in before;
    }
    forall x | PersistentRecorded(persistent, after, x)
      ensures PersistentRecorded(persistent, before, x) && after[x] == before[x]
    {
      assert after[x] == before[x];
    }
    forall x | Recorded(persistent, after, x)
      ensures Recorded(persistent, before, x) && after[x] == before[x]
    {
      assert after[x] == before[x];
    }
  }

  lemma NoneLeftAfter(tensors: seq<Tensor>, persistent: set<int>, before: seq<Alloc>, after: seq<Alloc>, node: int)
    requires |before| == |after| <= |tensors| && ArenaTensorsOnly(tensors, persistent, before)
    requires forall x | 0 <= x < |after| :: after[x] == if Erased(tensors, before, x, node) then NO_ALLOC else before[x]
    ensures forall x | Recorded(persistent, after, x) :: after[x].firstNode <= node
  {
    assert forall x | Recorded(persistent, after, x) :: Recorded(persistent, before, x);
  }

  lemma SpreadAfterReset(persistent: set<int>, before: seq<Alloc>, active: seq<Alloc>, highWaterMark: nat, floor: int,
                         after: seq<Alloc>, active': seq<Alloc>, node: int)
    requires Spread(persistent, before, active, highWaterMark, floor) && Shrinks(before, after)
    requires forall x | Recorded(persistent, after, x) :: after[x].firstNode <= node
    requires if floor > node then forall a | a in after && a.firstNode <= node <= a.lastNode :: a in active'
             else forall a | a in active && a.tensor != -1 && a.firstNode <= node :: a in active'
    ensures Spread(persistent, after, active', highWaterMark, node)
  {
    assert forall x | Recorded(persistent, after, x) :: Recorded(persistent, before, x) && after[x] == before[x];
    assert forall x | Recorded(persistent, after, x) :: after[x] in after;
  }

  lemma RecordsAfterReset(persistent: set<int>, before: seq<Alloc>, active: seq<Alloc>, highWaterMark: nat,
                          queues: seq<set<int>>, after: seq<Alloc>)
    requires PersistentSpread(persistent, before, active, highWaterMark) && RecordsQueued(before, queues)
    requires Shrinks(before, after)
    ensures PersistentSpread(persistent, after, active, highWaterMark) && RecordsQueued(after, queues)
  {
    assert forall x | PersistentRecorded(persistent, after, x) ::
        PersistentRecorded(persistent, before, x) && after[x] == before[x];
  }
}
