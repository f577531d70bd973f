/**
  The planner's memory really is a layout in which a graph can be run: planning
  followed by executing the plan, range by range and with parts of it forgotten in
  between, gives every tensor either the buffer of an equally large arena tensor or a
  buffer of its own, points it there, and keeps buffers that are in use together apart.
  The exceptions are a persistent tensor that shares a buffer of the other arena, and one
  that has grown since it was given its buffer.
 */
module PlannedMemory {
  import opened TfLiteGraph
  import opened InPlaceSharing
  import opened Lifetimes
  import opened SimpleMemoryArena
  import opened AllocationOrder
  import opened Placement
  import opened ArenaPlanner
  import opened MemorySemantics

  // Tensors of the arenas; tensors of no bytes need nothing.
  predicate NeedsRoom(tensor: Tensor) {
    tensor.bytes > 0 && (tensor.allocationType == ArenaRw || tensor.allocationType == ArenaRwPersistent)
  }

  // The planner's tables, which every step of execution changes.
  datatype Tables = Tables(tensors: seq<Tensor>, allocs: seq<Alloc>, persistent: set<int>, queues: seq<set<int>>,
                           allocNode: seq<int>, deallocNode: seq<int>, aliases: AliasMap) {
    // The queues of the nodes up to `last` contain x.
    ghost predicate Early(x: int, last: int) { Queued(queues, x, 0, last) }

    function RecordOf(x: int): Alloc { ArenaPlanner.RecordOf(allocs, x) }

    function HoldingOf(x: int): Holding { Placement.HoldingOf(allocs, persistent, x) }

    predicate RecordedFor(x: int, bytes: nat, lastNode: int) {
      && 0 <= x < |allocNode| && 0 <= allocNode[x] < |queues| && x in queues[allocNode[x]]
      && RecordOf(x) == Alloc(RecordOf(x).offset, bytes, x, allocNode[x], lastNode)
    }

    // x has a buffer of its size and planned lifetime in the right arena.
    predicate HasOwn(x: int)
      requires 0 <= x < |tensors|
    {
      if tensors[x].allocationType == ArenaRw
      then x !in persistent && x < |deallocNode| && RecordedFor(x, tensors[x].bytes, deallocNode[x])
      else x in persistent && RecordedFor(x, tensors[x].bytes, NOT_ASSIGNED)
    }

    // x has a persistent buffer from before, of whatever size.
    predicate HasKept(x: int) {
      x in persistent && x !in aliases && RecordOf(x).size > 0 && RecordedFor(x, RecordOf(x).size, NOT_ASSIGNED)
    }

    // The planner takes the buffer that x has kept for good enough, but it has another
    // size than the tensor or lies in the wrong arena.
    predicate Misfit(x: int)
      requires 0 <= x < |tensors|
    {
      && NeedsRoom(tensors[x]) && x in persistent && RecordOf(x).size > 0
      && (if tensors[x].allocationType == ArenaRw then RecordOf(x).size >= tensors[x].bytes
          else RecordOf(x).size != tensors[x].bytes)
    }

    // What x has kept is too small or in the wrong arena.
    predicate Outgrows(x: int)
      requires 0 <= x < |tensors|
    {
      Misfit(x) && (tensors[x].allocationType == ArenaRw || RecordOf(x).size < tensors[x].bytes)
    }

    // Sharing or a buffer of its own, never both. Of the tensors that come after node
    // `last`, only persistent buffers are left from before.
    ghost predicate Housed(x: int, last: int)
      requires 0 <= x < |tensors|
    {
      if Early(x, last) && NeedsRoom(tensors[x]) then
        if x in aliases then KeepsSharing(tensors, aliases, x) && RecordOf(x) == NO_ALLOC
        else HasOwn(x) || (HasKept(x) && Misfit(x))
      else
        RecordOf(x) == NO_ALLOC || HasKept(x)
    }

    // x has persistent memory, which it is not given twice.
    predicate Keeps(x: int) {
      0 <= x < |tensors| && tensors[x].allocationType == ArenaRwPersistent && RecordOf(x).size > 0
    }

    // The tensor whose memory x points to.
    function Owner(x: int): int {
      if x in aliases && SameArena(tensors, aliases[x], x) then aliases[x] else x
    }

    predicate Misplaced(x: int) {
      && 0 <= x < |tensors| && tensors[x].allocationType == ArenaRw && RecordOf(x).size != 0 && x in persistent
    }

    // They are the tables of the plan.
    ghost predicate Follow(plan: Plan) {
      && PlanKept(plan, aliases, allocNode, deallocNode, queues)
      && QueuedAtFirstUse(queues, allocNode)
      && TemporariesDisjoint(plan.graph, |tensors|)
    }

    // The temporaries of the nodes up to `last` have their lifetimes.
    ghost predicate TemporariesHoused(g: Graph, last: int) {
      && |allocNode| == |deallocNode|
      && forall i, x | 0 <= i <= last && UsesTemporary(g, i, x) ::
          && 0 <= x < |allocNode| && i < |queues|
          && allocNode[x] == i <= deallocNode[x] && x in queues[i]
    }
  }

  ghost function TablesOf(p: ArenaPlanner): Tables
    reads p
  {
    Tables(p.tensors, p.allocs, p.persistentRecords, p.nodesToTensors, p.allocNode, p.deallocNode, p.actualTensorId)
  }

  ghost predicate BlocksSuffice(p: ArenaPlanner)
    reads p, p.arena, p.persistentArena
  {
    && p.arena.committed && p.arena.highWaterMark <= p.arena.bufferSize
    && p.persistentArena.committed && p.persistentArena.highWaterMark <= p.persistentArena.bufferSize
  }

  // The plan has been executed for the nodes up to `last`, in one call or in several.
  ghost predicate Executed(p: ArenaPlanner, last: int)
    reads p, p.arena, p.persistentArena
  {
    var t := TablesOf(p);
    && p.Ready() && p.HoldsPlan() && |p.data| == |p.tensors| && -1 <= last < |p.graph.nodes|
    && p.Placed(p.lastActiveNode) && (p.lastActiveNode <= last + 1 || p.NothingPlaced())
    && t.TemporariesHoused(p.graph, last)
    && (forall x | 0 <= x < |p.tensors| :: t.Housed(x, last))
    && (forall x | 0 <= x < |p.tensors| && NeedsRoom(p.tensors[x]) && t.Early(x, last)
                   && !p.Misplaced(p.PointerOwner(x)) :: p.PointsHome(x))
    && (last >= 0 ==> BlocksSuffice(p))
  }

  // ... for all nodes.
  ghost predicate FullyExecuted(p: ArenaPlanner)
    reads p, p.arena, p.persistentArena
  {
    p.graph.nodes != [] && p.Grown() && Executed(p, |p.graph.nodes| - 1)
  }

  predicate TemporariesInRange(g: Graph, numTensors: nat) {
    forall i | 0 <= i < |g.nodes| :: AllTensors(g.nodes[i].temporaries, numTensors)
  }

  // ---- Owners come first

  // x starts, or is a temporary, only after node `last`.
  ghost predicate StartsAfter(g: Graph, x: int, last: int) {
    exists i :: last < i && (StartsAt(g, x, i) || UsesTemporary(g, i, x))
  }

  lemma EarlyIsNotLate(plan: Plan, t: Tables, x: int, last: int)
    requires t.Follow(plan) && t.Early(x, last)
    ensures !StartsAfter(plan.graph, x, last)
  {
    var k :| 0 <= k < |t.queues| && 0 <= k <= last && x in t.queues[k];
    assert QueueKept(plan.graph, t.queues[k], k);
  }

  lemma QueuedAfter(plan: Plan, t: Tables, x: int, first: int, last: int)
    requires t.Follow(plan) && 0 <= first && Queued(t.queues, x, first, last)
    ensures StartsAfter(plan.graph, x, first - 1)
  {
    var k :| 0 <= k < |t.queues| && first <= k <= last && x in t.queues[k];
    assert QueueKept(plan.graph, t.queues[k], k);
  }

  // The owner of a shared buffer starts no later than the tensor that shares it.
  lemma OwnerIsEarlier(plan: Plan, t: Tables, x: int, last: int)
    requires t.Follow(plan) && t.Early(x, last) && x in t.aliases
    ensures !StartsAfter(plan.graph, t.aliases[x], last)
  {
    var g, m, w := plan.graph, Aliases(plan), t.aliases[x];
    AliasMapIsSound(plan);
    var maker :| MadeBy(plan, m, x, maker);
    var reader := OwnerIsRead(plan, m, x);
    var k :| 0 <= k < |t.queues| && 0 <= k <= last && x in t.queues[k];
    assert QueueKept(g, t.queues[k], k);
    assert Writes(g, maker, x) && maker == k;
  }

  // ---- Executing the plan for the next range of nodes

  // The tables before and after a call.
  ghost predicate GoesOn(plan: Plan, t: Tables, t': Tables, first: int, last: int) {
    && t.Follow(plan) && t'.Follow(plan) && t.tensors == t'.tensors && 0 <= first <= last < |t.queues|
    && |t.allocNode| == |t.deallocNode| && |t'.allocNode| == |t'.deallocNode| == |t'.allocs| == |t'.tensors|
    && t.TemporariesHoused(plan.graph, first - 1)
    && |t'.queues| == |t.queues| && forall k | 0 <= k < |t.queues| :: t.queues[k] <= t'.queues[k]
  }

  ghost predicate DealtWith(t: Tables, t': Tables, x: int, first: int, last: int)
    requires 0 <= x < |t'.tensors|
  {
    Queued(t'.queues, x, first, last) && NeedsMemory(t'.tensors[x], t.RecordOf(x))
  }

  // What a call has done to tensor x.
  ghost predicate Processed(plan: Plan, t: Tables, t': Tables, x: int, first: int, last: int)
    requires GoesOn(plan, t, t', first, last) && 0 <= x < |t'.tensors|
  {
    && (x in t'.aliases <==>
          x in t.aliases && (KeepsSharing(t.tensors, t.aliases, x) || !DealtWith(t, t', x, first, last)))
    && (x in t'.aliases ==> t'.aliases[x] == t.aliases[x])
    && (if DealtWith(t, t', x, first, last)
        then Settled(t'.tensors, t'.allocNode, t'.deallocNode, x, t.aliases, t.HoldingOf(x), t'.HoldingOf(x))
        else t'.HoldingOf(x) == t.HoldingOf(x))
    && (x < |t.deallocNode| && (forall i | first <= i <= last :: !UsesTemporary(plan.graph, i, x)) ==>
          t'.deallocNode[x] == t.deallocNode[x])
  }

  // The queues of earlier nodes do not change any more.
  lemma EarlyStays(plan: Plan, t: Tables, t': Tables, x: int, first: int, last: int)
    requires GoesOn(plan, t, t', first, last)
    ensures t'.Early(x, first - 1) <==> t.Early(x, first - 1)
    ensures t'.Early(x, last) <==> t'.Early(x, first - 1) || Queued(t'.queues, x, first, last)
    ensures !(t'.Early(x, first - 1) && Queued(t'.queues, x, first, last))
    ensures forall k | 0 <= k < |t.queues| && x in t.queues[k] ::
              0 <= x < |t.allocNode| && x < |t'.allocNode| && t.allocNode[x] == k == t'.allocNode[x]
  {
    hide WellFormed, InRange, AllocatedAt, ReleasedAt, Aliases;
    forall k | 0 <= k < |t.queues|
      ensures QueueKept(plan.graph, t.queues[k], k) && QueueKept(plan.graph, t'.queues[k], k)
    {
    }
    if t'.Early(x, first - 1) {
      var k :| 0 <= k < |t'.queues| && 0 <= k <= first - 1 && x in t'.queues[k];
      assert x in t.queues[k];
    }
    if t.Early(x, first - 1) {
      var k :| 0 <= k < |t.queues| && 0 <= k <= first - 1 && x in t.queues[k];
      assert x in t'.queues[k];
    }
    if t'.Early(x, last) && !t'.Early(x, first - 1) {
      var k :| 0 <= k < |t'.queues| && 0 <= k <= last && x in t'.queues[k];
      assert first <= k;
    }
  }

  // What earlier nodes have left stays; everything else is dealt with if its node is
  // among the next ones.
  lemma HousedNext(plan: Plan, t: Tables, t': Tables, x: int, first: int, last: int)
    requires GoesOn(plan, t, t', first, last) && 0 <= x < |t.tensors| && Processed(plan, t, t', x, first, last)
    requires t.Housed(x, first - 1)
    ensures t'.Housed(x, last)
    ensures t'.Misfit(x) <==> t.Misfit(x)
    ensures t.Keeps(x) ==> t'.RecordOf(x) == t.RecordOf(x)
  {
    hide PlanKept, TemporariesDisjoint, Tables.Housed, KeepsSharing;
    if t.Early(x, first - 1) {
      EarlyHoused(plan, t, t', x, first, last);
    } else {
      LateHoused(plan, t, t', x, first, last);
    }
  }

  lemma EarlyHoused(plan: Plan, t: Tables, t': Tables, x: int, first: int, last: int)
    requires GoesOn(plan, t, t', first, last) && 0 <= x < |t.tensors| && Processed(plan, t, t', x, first, last)
    requires t.Housed(x, first - 1) && t.Early(x, first - 1)
    ensures t'.Housed(x, last)
  {
    hide PlanKept, TemporariesDisjoint, QueuedAtFirstUse, Settled;
    EarlyStays(plan, t, t', x, first, last);
    EarlyIsNotLate(plan, t, x, first - 1);
  }

  lemma LateHoused(plan: Plan, t: Tables, t': Tables, x: int, first: int, last: int)
    requires GoesOn(plan, t, t', first, last) && 0 <= x < |t.tensors| && Processed(plan, t, t', x, first, last)
    requires t.Housed(x, first - 1) && !t.Early(x, first - 1)
    ensures t'.Housed(x, last)
  {
    hide PlanKept, TemporariesDisjoint;
    EarlyStays(plan, t, t', x, first, last);
  }

  lemma TemporariesNext(plan: Plan, t: Tables, t': Tables, first: int, last: int)
    requires GoesOn(plan, t, t', first, last)
    requires forall x | 0 <= x < |t.tensors| :: Processed(plan, t, t', x, first, last)
    requires forall i, x | first <= i <= last && UsesTemporary(plan.graph, i, x) ::
               0 <= x < |t'.allocNode| && t'.allocNode[x] == i <= t'.deallocNode[x] && x in t'.queues[i]
    ensures t'.TemporariesHoused(plan.graph, last)
  {
    forall i, x | 0 <= i < first && UsesTemporary(plan.graph, i, x)
      ensures 0 <= x < |t'.allocNode| && t'.allocNode[x] == i <= t'.deallocNode[x] && x in t'.queues[i]
    {
      EarlyStays(plan, t, t', x, first, last);
      assert Processed(plan, t, t', x, first, last);
    }
  }

  // A tensor that a call has not dealt with has an owner it has not dealt with.
  lemma OwnerIsLeft(plan: Plan, t: Tables, t': Tables, x: int, first: int, last: int)
    requires GoesOn(plan, t, t', first, last) && t.Early(x, first - 1)
    ensures !Queued(t'.queues, x, first, last)
    ensures x in t.aliases ==> !Queued(t'.queues, t.aliases[x], first, last)
  {
    EarlyStays(plan, t, t', x, first, last);
    if x in t.aliases && Queued(t'.queues, t.aliases[x], first, last) {
      OwnerIsEarlier(plan, t, x, first - 1);
      QueuedAfter(plan, t', t.aliases[x], first, last);
    }
  }

  // What a call leaves of the tables t: tensors that can share go on sharing, and no
  // others; persistent tensors keep the buffers they have; buffers that do not fit stay so,
  // and no others are.
  ghost predicate FollowsFrom(t': Tables, t: Tables) {
    && t'.tensors == t.tensors
    && (forall x | x in t'.aliases :: x in t.aliases && t'.aliases[x] == t.aliases[x])
    && (forall x | KeepsSharing(t.tensors, t.aliases, x) :: x in t'.aliases)
    && (forall x | t.Keeps(x) :: t'.RecordOf(x) == t.RecordOf(x))
    && (forall x | 0 <= x < |t.tensors| :: t'.Misfit(x) <==> t.Misfit(x))
  }

  lemma TablesNext(plan: Plan, t: Tables, t': Tables, first: int, last: int)
    requires GoesOn(plan, t, t', first, last)
    requires forall x | 0 <= x < |t.tensors| :: Processed(plan, t, t', x, first, last) && t.Housed(x, first - 1)
    requires forall i, x | first <= i <= last && UsesTemporary(plan.graph, i, x) ::
               0 <= x < |t'.allocNode| && t'.allocNode[x] == i <= t'.deallocNode[x] && x in t'.queues[i]
    requires forall x | x in t.aliases :: 0 <= x < |t.tensors|
    requires forall x | x in t'.aliases :: x in t.aliases && t'.aliases[x] == t.aliases[x]
    ensures forall x | 0 <= x < |t.tensors| :: t'.Housed(x, last)
    ensures FollowsFrom(t', t) && t'.TemporariesHoused(plan.graph, last)
  {
    hide PlanKept, TemporariesDisjoint, QueuedAtFirstUse, Tables.Housed, Tables.Misfit;
    forall x | 0 <= x < |t.tensors|
      ensures t'.Housed(x, last) && (t'.Misfit(x) <==> t.Misfit(x))
      ensures t.Keeps(x) ==> t'.RecordOf(x) == t.RecordOf(x)
    {
      HousedNext(plan, t, t', x, first, last);
    }
    forall x | KeepsSharing(t.tensors, t.aliases, x)
      ensures x in t'.aliases
    {
      assert Processed(plan, t, t', x, first, last);
    }
    TemporariesNext(plan, t, t', first, last);
  }

  lemma KeptIsMisplaced(t: Tables, t': Tables, x: int)
    requires t'.HoldingOf(x) == t.HoldingOf(x) && t.HasKept(x)
    ensures x in t'.persistent && t'.RecordOf(x).size != 0 && x !in t.aliases
  {
  }

  // A tensor of the nodes so far that the call has not dealt with was there before, and so
  // was its owner.
  lemma LeftFromBefore(plan: Plan, t: Tables, t': Tables, x: int, first: int, last: int)
    requires GoesOn(plan, t, t', first, last) && 0 <= x < |t.tensors| && NeedsRoom(t.tensors[x])
    requires t'.Early(x, last) && !DealtWith(t, t', x, first, last) && t.Housed(x, first - 1)
    requires t.HasKept(x) ==> t.tensors[x].allocationType != ArenaRw
    ensures t.Early(x, first - 1)
    ensures !Queued(t'.queues, t.Owner(x), first, last)
  {
    EarlyStays(plan, t, t', x, first, last);
    OwnerIsLeft(plan, t, t', x, first, last);
  }

  // x points to its memory, unless something has happened to it or to its owner.
  ghost predicate StillPoints(p: ArenaPlanner, t: Tables, x: int, first: int, last: int)
    requires |p.data| == |p.tensors| && 0 <= x < |p.tensors|
    reads p, p.arena, p.persistentArena
  {
    p.PointsHome(x) || Queued(p.nodesToTensors, t.Owner(x), first, last) || DealtWith(t, TablesOf(p), x, first, last)
  }

  // What ExecuteAllocations does, in terms of the tables before and after.
  method ExecuteTables(p: ArenaPlanner, first: int, last: int, grant: Grant, ghost room: Room)
    returns (status: Status, ghost moved: bool)
    requires p.Ready() && p.InSequence(first, last) && |p.data| == |p.tensors| && 0 <= first <= last < |p.graph.nodes|
    requires TablesOf(p).TemporariesHoused(p.graph, first - 1) && TemporariesInRange(p.graph, |p.tensors|)
    modifies p`allocs, p`allocNode, p`deallocNode, p`nodesToTensors, p`actualTensorId,
             p`persistentRecords, p`lastActiveNode, p`data, p.arena, p.persistentArena
    ensures status.Ok? ==> && p.Ready() && p.HoldsPlan() && p.Placed(last) && p.lastActiveNode == last && BlocksSuffice(p)
                           && |p.data| == |p.tensors| && p.TemporariesPrepared(first, last)
    ensures status.Ok? ==> GoesOn(p.thePlan, old(TablesOf(p)), TablesOf(p), first, last)
    ensures status.Ok? ==> forall x | 0 <= x < |p.tensors| ::
              && Processed(p.thePlan, old(TablesOf(p)), TablesOf(p), x, first, last)
              && (moved || DealtWith(old(TablesOf(p)), TablesOf(p), x, first, last) ==> p.Resolved(x))
              && (old(p.PointsHome(x)) ==> moved || StillPoints(p, old(TablesOf(p)), x, first, last))
    ensures old(p.RoomFor(room)) && |p.tensors| <= room.count && grant.granted && grant.persistentGranted ==>
              status.Ok? && p.RoomFor(room.Filled(p.tensorAlignment))
  {
    hide WellFormed, InRange, TemporariesDisjoint, PlanKept, QueuedAtFirstUse, Spread, PersistentSpread, RecordsQueued;
    hide Queued, Settled, KeepsSharing, NeedsMemory, Tidy, EndsBelow, NothingMisplaced, ArenaTensorsOnly, SameArena;
    ghost var t := TablesOf(p);
    status := p.ExecuteAllocations(first, last, grant, room);
    moved := p.arena.base != old(p.arena.base) || p.persistentArena.base != old(p.persistentArena.base);
    if status.Ok? {
      assert p.LastTemporaryNode(last) == last;
      forall x | 0 <= x < |p.tensors|
        ensures Processed(p.thePlan, t, TablesOf(p), x, first, last)
        ensures moved || DealtWith(t, TablesOf(p), x, first, last) ==> p.Resolved(x)
        ensures old(p.PointsHome(x)) ==> moved || StillPoints(p, t, x, first, last)
      {
        assert p.DealtWith(x, first, last, t.allocs) <==> DealtWith(t, TablesOf(p), x, first, last);
        assert old(p.PointerOwner(x)) == t.Owner(x);
      }
    }
  }

  // The interpreter prepares some more nodes and has the plan executed for them.
  method ExecuteNext(p: ArenaPlanner, first: int, last: int, grant: Grant, ghost room: Room) returns (status: Status)
    requires Executed(p, first - 1) && 0 <= first <= last < |p.graph.nodes|
    requires TemporariesInRange(p.graph, |p.tensors|)
    modifies p`allocs, p`allocNode, p`deallocNode, p`nodesToTensors, p`actualTensorId,
             p`persistentRecords, p`lastActiveNode, p`data, p.arena, p.persistentArena
    ensures status.Ok? ==> Executed(p, last) && p.Grown()
    ensures status.Ok? ==> FollowsFrom(TablesOf(p), old(TablesOf(p)))
    // It succeeds, unless sizes can overflow or memory is refused.
    ensures old(p.RoomFor(room)) && |p.tensors| <= room.count && grant.granted && grant.persistentGranted ==>
              status.Ok? && p.RoomFor(room.Filled(p.tensorAlignment))
  {
    hide WellFormed, InRange, TemporariesDisjoint, PlanKept, QueuedAtFirstUse, Spread, PersistentSpread, RecordsQueued;
    hide Queued, Settled, KeepsSharing, NeedsMemory, Tidy, EndsBelow, NothingMisplaced, ArenaTensorsOnly, Processed;
    hide Tables.Housed, Tables.TemporariesHoused, Tables.Early, FollowsFrom, StillPoints, DealtWith;
    ghost var plan, t := p.thePlan, TablesOf(p);
    ghost var moved;
    status, moved := ExecuteTables(p, first, last, grant, room);
    if status.Ok? {
      assert p.LastTemporaryNode(last) == last;
      AliasesNext(plan, t, TablesOf(p), first, last);
      TablesNext(plan, t, TablesOf(p), first, last);
      p.PlacedIsCovered(last);
      PointersNext(p, plan, t, moved, first, last);
    }
  }

  lemma AliasesNext(plan: Plan, t: Tables, t': Tables, first: int, last: int)
    requires GoesOn(plan, t, t', first, last)
    requires forall x | 0 <= x < |t.tensors| :: Processed(plan, t, t', x, first, last)
    requires forall x | x in t.aliases :: 0 <= x < |t.tensors|
    requires forall x | x in t'.aliases :: 0 <= x < |t.tensors|
    ensures forall x | x in t'.aliases :: x in t.aliases && t'.aliases[x] == t.aliases[x]
  {
    forall x | x in t'.aliases
      ensures x in t.aliases && t'.aliases[x] == t.aliases[x]
    {
      assert Processed(plan, t, t', x, first, last);
    }
  }

  lemma PointersNext(p: ArenaPlanner, plan: Plan, t: Tables, moved: bool, first: int, last: int)
    requires p.Ready() && p.Grown() && |p.data| == |p.tensors| && p.Covered() && BlocksSuffice(p)
    requires GoesOn(plan, t, TablesOf(p), first, last)
    requires forall x | 0 <= x < |t.tensors| :: Processed(plan, t, TablesOf(p), x, first, last) && t.Housed(x, first - 1)
    requires forall x | 0 <= x < |t.tensors| && (moved || DealtWith(t, TablesOf(p), x, first, last)) :: p.Resolved(x)
    requires forall x | 0 <= x < |p.tensors| && NeedsRoom(p.tensors[x]) && t.Early(x, first - 1)
                        && !t.Misplaced(t.Owner(x)) :: moved || StillPoints(p, t, x, first, last)
    ensures forall x | 0 <= x < |p.tensors| && NeedsRoom(p.tensors[x]) && TablesOf(p).Early(x, last)
                       && !p.Misplaced(p.PointerOwner(x)) :: p.PointsHome(x)
  {
    hide WellFormed, InRange, TemporariesDisjoint, PlanKept, QueuedAtFirstUse, Spread, PersistentSpread, RecordsQueued;
    hide Queued, Settled, KeepsSharing, NeedsMemory, Tidy, EndsBelow, NothingMisplaced, ArenaTensorsOnly, Flat;
    hide Tables.Housed, Tables.Misfit, Tables.TemporariesHoused, Tables.HasKept, SameArena;
    var t' := TablesOf(p);
    forall x | 0 <= x < |p.tensors| && NeedsRoom(p.tensors[x]) && t'.Early(x, last) && !p.Misplaced(p.PointerOwner(x))
      ensures p.PointsHome(x)
    {
      if moved || DealtWith(t, t', x, first, last) {
        p.ResolvedPointsHome(x);
      } else {
        assert Processed(plan, t, t', x, first, last);
        assert t'.Owner(x) == t.Owner(x);
        if t.HasKept(x) {
          KeptIsMisplaced(t, t', x);
        }
        LeftFromBefore(plan, t, t', x, first, last);
        OwnerIsUntouched(p, plan, t, x, first, last);
      }
    }
  }

  lemma OwnerIsUntouched(p: ArenaPlanner, plan: Plan, t: Tables, x: int, first: int, last: int)
    requires p.Ready() && GoesOn(plan, t, TablesOf(p), first, last) && 0 <= x < |t.tensors|
    requires forall y | 0 <= y < |t.tensors| :: Processed(plan, t, TablesOf(p), y, first, last)
    requires !DealtWith(t, TablesOf(p), x, first, last) && TablesOf(p).Owner(x) == t.Owner(x)
    requires t.Owner(x) != x ==> !Queued(p.nodesToTensors, t.Owner(x), first, last)
    ensures p.Misplaced(p.PointerOwner(x)) <==> t.Misplaced(t.Owner(x))
  {
    hide WellFormed, InRange, TemporariesDisjoint, PlanKept, QueuedAtFirstUse, Queued, Settled, KeepsSharing, NeedsMemory;
    var w := t.Owner(x);
    assert 0 <= w < |t.tensors| && Processed(plan, t, TablesOf(p), w, first, last);
    assert TablesOf(p).HoldingOf(w) == t.HoldingOf(w);
  }

  // ---- Between two calls

  // Operators of nodes still to come may settle the tensors that start with these nodes.
  ghost predicate Settles(g: Graph, tensors: seq<Tensor>, prepared: seq<Tensor>, last: int) {
    && |tensors| <= |prepared| && TemporariesDisjoint(g, |prepared|)
    && forall x | 0 <= x < |tensors| && !StartsAfter(g, x, last) :: prepared[x] == tensors[x]
  }

  lemma HousedSettled(plan: Plan, t: Tables, prepared: seq<Tensor>, last: int, x: int)
    requires t.Follow(plan) && Settles(plan.graph, t.tensors, prepared, last) && |t.allocs| <= |t.tensors|
    requires forall k | 0 <= k < |t.queues| :: forall x | x in t.queues[k] :: 0 <= x < |t.tensors|
    requires 0 <= x < |prepared| && (x < |t.tensors| ==> t.Housed(x, last))
    ensures t.(tensors := prepared).Housed(x, last)
  {
    if t.Early(x, last) {
      EarlyIsNotLate(plan, t, x, last);
      if x in t.aliases {
        OwnerIsEarlier(plan, t, x, last);
      }
    }
    hide PlanKept, TemporariesDisjoint, QueuedAtFirstUse;
  }

  // What has been placed and what points there does not depend on what may change.
  lemma SettlingIsHarmless(p: ArenaPlanner, prepared: seq<Tensor>, last: int)
    requires Executed(p, last) && Settles(p.graph, p.tensors, prepared, last)
    ensures forall x | 0 <= x < |prepared| :: TablesOf(p).(tensors := prepared).Housed(x, last)
    ensures forall x | TablesOf(p).Early(x, last) :: UndisturbedBy(p, prepared, x)
    ensures ArenaTensorsOnly(prepared, p.persistentRecords, p.allocs)
  {
    hide WellFormed, InRange, TemporariesDisjoint, PlanKept, QueuedAtFirstUse, Spread, PersistentSpread, RecordsQueued;
    var plan, t := p.thePlan, TablesOf(p);
    forall x | 0 <= x < |prepared|
      ensures t.(tensors := prepared).Housed(x, last)
    {
      HousedSettled(plan, t, prepared, last, x);
    }
    forall x | t.Early(x, last)
      ensures UndisturbedBy(p, prepared, x)
    {
      EarlyIsNotLate(plan, t, x, last);
      if x in p.actualTensorId {
        OwnerIsEarlier(plan, t, x, last);
      }
    }
    forall x | Recorded(p.persistentRecords, p.allocs, x)
      ensures x < |prepared| && prepared[x].allocationType == ArenaRw
    {
      assert t.Housed(x, last) && t.RecordOf(x) != NO_ALLOC;
      assert t.Early(x, last);
    }
  }

  // Neither x nor the tensor whose buffer it shares are others than before.
  ghost predicate UndisturbedBy(p: ArenaPlanner, prepared: seq<Tensor>, x: int)
    reads p
  {
    && 0 <= x < |p.tensors| <= |prepared| && prepared[x] == p.tensors[x]
    && (x in p.actualTensorId ==>
          var w := p.actualTensorId[x];
          0 <= w < |p.tensors| && prepared[w] == p.tensors[w])
  }

  // The tensor table changes between two calls: tensors of nodes that have been
  // prepared stay, later ones are settled, temporaries are added.
  method Settle(p: ArenaPlanner, prepared: seq<Tensor>, last: int)
    requires Executed(p, last) && Settles(p.graph, p.tensors, prepared, last)
    modifies p`tensors, p`data
    ensures Executed(p, last) && p.tensors == prepared
    ensures TablesOf(p) == old(TablesOf(p)).(tensors := prepared)
  {
    hide WellFormed, InRange, TemporariesDisjoint, PlanKept, QueuedAtFirstUse, Spread, PersistentSpread, RecordsQueued;
    hide StartsAfter, KeepsSharing, Queued, Tables.Housed, Tidy, ArenaTensorsOnly, ArenaPlanner.ArenasValid;
    ghost var t := TablesOf(p);
    SettlingIsHarmless(p, prepared, last);
    p.data := p.data + seq(|prepared| - |p.tensors|, _ => Null);
    p.tensors := prepared;
    assert TablesOf(p) == t.(tensors := prepared);
    assert forall x :: TablesOf(p).Early(x, last) <==> t.Early(x, last);
  }

  // The records that are left once everything after the node has been forgotten.
  function Remaining(tensors: seq<Tensor>, allocs: seq<Alloc>, node: int): (left: seq<Alloc>)
    requires |allocs| <= |tensors|
    ensures |left| == |allocs|
    ensures forall x | 0 <= x < |allocs| :: left[x] == if Erased(tensors, allocs, x, node) then NO_ALLOC else allocs[x]
  {
    seq(|allocs|, x requires 0 <= x < |allocs| => if Erased(tensors, allocs, x, node) then NO_ALLOC else allocs[x])
  }

  function LeftAfter(t: Tables, node: int): Tables {
    t.(allocs := if |t.allocs| <= |t.tensors| then Remaining(t.tensors, t.allocs, node) else t.allocs)
  }

  lemma HousedForgotten(plan: Plan, t: Tables, x: int, node: int, last: int)
    requires t.Follow(plan) && |t.allocs| <= |t.tensors| && 0 <= x < |t.tensors| && node <= last < |t.queues|
    requires t.Housed(x, last)
    ensures t.(allocs := Remaining(t.tensors, t.allocs, node)).Housed(x, node)
    ensures t.Early(x, node) && x < |t.allocs| ==> !Erased(t.tensors, t.allocs, x, node)
    ensures !StartsAfter(plan.graph, x, node) && x < |t.allocs| ==> !Erased(t.tensors, t.allocs, x, node)
  {
    var first := t.RecordOf(x).firstNode;
    var left := t.(allocs := Remaining(t.tensors, t.allocs, node));
    assert left.RecordOf(x) == if x < |t.allocs| && Erased(t.tensors, t.allocs, x, node) then NO_ALLOC else t.RecordOf(x);
    if t.Early(x, node) {
      var k :| 0 <= k < |t.queues| && 0 <= k <= node && x in t.queues[k];
      assert t.Early(x, last);
    }
    if t.RecordOf(x) != NO_ALLOC {
      assert 0 <= first < |t.queues| && x in t.queues[first] && t.allocNode[x] == first;
      assert QueueKept(plan.graph, t.queues[first], first);
      assert first <= last ==> t.Early(x, last);
    }
    hide PlanKept, TemporariesDisjoint, QueueKept;
  }

  lemma ForgettingIsHarmless(p: ArenaPlanner, node: int, last: int)
    requires Executed(p, last) && 0 <= node <= last
    ensures forall x | 0 <= x < |p.tensors| ::
              TablesOf(p).(allocs := Remaining(p.tensors, p.allocs, node)).Housed(x, node)
    ensures forall x | TablesOf(p).Early(x, node) :: TablesOf(p).Early(x, last) && RemembersOwner(p, x, node)
  {
    var plan, t := p.thePlan, TablesOf(p);
    hide WellFormed, InRange, TemporariesDisjoint, PlanKept, QueuedAtFirstUse, Spread, PersistentSpread, RecordsQueued;
    forall x | 0 <= x < |p.tensors|
      ensures t.(allocs := Remaining(p.tensors, p.allocs, node)).Housed(x, node)
    {
      HousedForgotten(plan, t, x, node, last);
    }
    forall x | t.Early(x, node)
      ensures t.Early(x, last) && RemembersOwner(p, x, node)
    {
      var k :| 0 <= k < |t.queues| && 0 <= k <= node && x in t.queues[k];
      HousedForgotten(plan, t, x, node, last);
      if x in p.actualTensorId {
        OwnerIsEarlier(plan, t, x, node);
        HousedForgotten(plan, t, p.actualTensorId[x], node, last);
      }
    }
  }

  // Neither the record of x nor that of the tensor whose buffer it shares goes away.
  ghost predicate RemembersOwner(p: ArenaPlanner, x: int, node: int)
    requires p.Ready()
    reads p, p.arena, p.persistentArena
  {
    && 0 <= x < |p.tensors| && (x < |p.allocs| ==> !Erased(p.tensors, p.allocs, x, node))
    && (x in p.actualTensorId && p.actualTensorId[x] < |p.allocs| ==>
          !Erased(p.tensors, p.allocs, p.actualTensorId[x], node))
  }

  // A dynamic output has got its size: everything after its node is forgotten.
  method Forget(p: ArenaPlanner, node: int, ghost last: int)
    requires Executed(p, last) && 0 <= node <= last
    modifies p`allocs, p`data, p`lastActiveNode, p.arena`activeAllocs
    ensures Executed(p, node) && forall room :: old(p.RoomFor(room)) ==> p.RoomFor(room)
    ensures TablesOf(p) == old(LeftAfter(TablesOf(p), node))
    ensures forall x | 0 <= x < |p.allocs| && TablesOf(p).Early(x, node) ::
              p.allocs[x] == old(p.allocs)[x] && p.data[x] == old(p.data)[x]
  {
    hide WellFormed, InRange, TemporariesDisjoint, PlanKept, QueuedAtFirstUse, Spread, PersistentSpread, RecordsQueued;
    hide StartsAfter, KeepsSharing, Queued, Tables.Housed, Tidy, EndsBelow, NothingMisplaced, ArenaTensorsOnly, Flat;
    hide SameArena, Remaining, Erased;
    ghost var t := TablesOf(p);
    ForgettingIsHarmless(p, node, last);
    p.ResetAllocationsAfter(node);
    assert TablesOf(p) == t.(allocs := Remaining(p.tensors, t.allocs, node));
    assert forall x :: TablesOf(p).Early(x, node) <==> t.Early(x, node);
  }

  // ---- The memory of a fully executed plan

  // The graph's arena tensors come from somewhere: constants live elsewhere.
  ghost predicate ReadsHaveSources(g: Graph, tensors: seq<Tensor>) {
    forall i, x | Reads(g, i, x) && 0 <= x < |tensors| && tensors[x].allocationType == ArenaRw :: Sourced(g, x)
  }

  // x is to be given memory.
  ghost predicate Used(p: ArenaPlanner, x: int)
    reads p
  {
    0 <= x < |p.tensors| && NeedsRoom(p.tensors[x]) && Queued(p.nodesToTensors, x, 0, |p.graph.nodes| - 1)
  }

  // The owner of a shared buffer is to be given memory itself.
  lemma OwnerIsUsed(p: ArenaPlanner, x: int)
    requires FullyExecuted(p) && 0 <= x < |p.tensors|
    requires x in p.actualTensorId && KeepsSharing(p.tensors, p.actualTensorId, x) && p.tensors[x].bytes > 0
    requires ReadsHaveSources(p.graph, p.tensors)
    ensures p.actualTensorId[x] !in p.actualTensorId && Used(p, p.actualTensorId[x])
  {
    hide InRange, AllocatedAt, ReleasedAt, AliasesUpTo, QueuedAtFirstUse, Spread, PersistentSpread, RecordsQueued;
    hide Tidy, ArenaTensorsOnly, Tables.Housed, MadeBy, TemporariesDisjoint;
    AliasMapIsSound(p.thePlan);
    var reader := OwnerIsRead(p.thePlan, Aliases(p.thePlan), x);
    SourcedIsQueued(p, p.actualTensorId[x]);
  }

  // The owner of a shared buffer owns an allocation.
  lemma OwnerIsHoused(p: ArenaPlanner, x: int)
    requires FullyExecuted(p) && 0 <= x < |p.tensors|
    requires x in p.actualTensorId && KeepsSharing(p.tensors, p.actualTensorId, x) && p.tensors[x].bytes > 0
    requires ReadsHaveSources(p.graph, p.tensors)
    ensures var w := p.actualTensorId[x];
      && w !in p.actualTensorId && Used(p, w)
      && (!TablesOf(p).Misfit(w) ==>
            p.allocs[w].size == p.tensors[x].bytes && p.allocs[w].tensor == w && w !in p.persistentRecords)
  {
    hide PlanKept, QueuedAtFirstUse, Spread, PersistentSpread, RecordsQueued, Tidy, ArenaTensorsOnly, TemporariesDisjoint;
    hide ReadsHaveSources, Queued;
    OwnerIsUsed(p, x);
    assert TablesOf(p).Housed(p.actualTensorId[x], |p.graph.nodes| - 1);
  }

  lemma SourcedIsQueued(p: ArenaPlanner, x: int)
    requires p.Ready() && p.HoldsPlan() && p.graph.nodes != []
    requires Sourced(p.graph, x) && x != OPTIONAL_TENSOR
    ensures Queued(p.nodesToTensors, x, 0, |p.graph.nodes| - 1)
  {
    var g := p.graph;
    if Produced(g, x) {
      var k :| Writes(g, k, x);
      assert StartsAt(g, x, k) && QueueKept(g, p.nodesToTensors[k], k);
    } else {
      assert StartsAt(g, x, 0) && QueueKept(g, p.nodesToTensors[0], 0);
    }
  }

  // The buffer of the owner, or of x itself, is large enough for x and lies in x's arena,
  // inside the committed block; x points to it.
  ghost predicate HasMemory(p: ArenaPlanner, x: int)
    requires p.Ready() && p.Grown() && |p.data| == |p.tensors| && 0 <= x < |p.tensors|
    reads p, p.arena, p.persistentArena
  {
    var w := p.PointerOwner(x);
    && p.allocs[w].tensor == w && p.tensors[x].bytes <= p.allocs[w].size
    && (if p.tensors[x].allocationType == ArenaRw
        then && w !in p.persistentRecords && p.arena.Resolvable(p.allocs[w])
             && p.data[x] == InArena(p.arena.base + p.allocs[w].offset)
        else && w in p.persistentRecords && p.persistentArena.Resolvable(p.allocs[w])
             && p.data[x] == InPersistentArena(p.persistentArena.base + p.allocs[w].offset))
  }

  // A persistent tensor shares the buffer of a tensor of the other arena.
  ghost predicate Stranded(tensors: seq<Tensor>, aliases: AliasMap, x: int) {
    KeepsSharing(tensors, aliases, x) && tensors[x].allocationType == ArenaRwPersistent && tensors[x].bytes > 0
  }

  // x, or the tensor whose buffer it shares, has kept a buffer that will not do.
  ghost predicate Outgrown(t: Tables, x: int) {
    && 0 <= x < |t.tensors|
    && (t.Outgrows(x) || (KeepsSharing(t.tensors, t.aliases, x) && t.Outgrows(t.aliases[x])))
  }

  // Every tensor has memory, except that a stranded one is left with a null pointer and an
  // outgrown one with the buffer it has kept. A buffer that has not been kept from before
  // has exactly the size of the tensor.
  lemma MemoryUnlessStranded(p: ArenaPlanner, x: int)
    requires FullyExecuted(p) && ReadsHaveSources(p.graph, p.tensors) && Used(p, x)
    ensures HasMemory(p, x) <==> !Stranded(p.tensors, p.actualTensorId, x) && !Outgrown(TablesOf(p), x)
    ensures Stranded(p.tensors, p.actualTensorId, x) ==> p.data[x] == Null && p.allocs[x] == NO_ALLOC
    ensures HasMemory(p, x) && !TablesOf(p).Misfit(x) ==> p.allocs[p.PointerOwner(x)].size == p.tensors[x].bytes
    ensures TablesOf(p).Outgrows(x) && p.tensors[x].allocationType == ArenaRwPersistent ==>
              && p.allocs[x].size < p.tensors[x].bytes
              && p.data[x] == InPersistentArena(p.persistentArena.base + p.allocs[x].offset)
  {
    hide Spread, PersistentSpread, RecordsQueued, PlanKept, TemporariesDisjoint, QueuedAtFirstUse, WellFormed;
    var t, last := TablesOf(p), |p.graph.nodes| - 1;
    assert t.Early(x, last) && t.Housed(x, last);
    p.PlacedIsCovered(p.lastActiveNode);
    if x in p.actualTensorId {
      OwnerIsHoused(p, x);
    }
  }

  lemma AliasIsUsed(p: ArenaPlanner, x: int)
    requires FullyExecuted(p) && Stranded(p.tensors, p.actualTensorId, x)
    ensures Used(p, x)
  {
    AliasMapIsSound(p.thePlan);
    var k :| MadeBy(p.thePlan, Aliases(p.thePlan), x, k);
    assert Produced(p.graph, x);
    SourcedIsQueued(p, x);
  }

  // Every buffer that has been kept is large enough, and in the right arena.
  ghost predicate AllFit(p: ArenaPlanner)
    reads p
  {
    forall x | Used(p, x) :: !TablesOf(p).Outgrows(x)
  }

  // No tensor has kept a buffer of another size, or in the wrong arena.
  ghost predicate AllSized(p: ArenaPlanner)
    reads p
  {
    forall x | Used(p, x) :: !TablesOf(p).Misfit(x)
  }

  // All tensors have memory exactly if no persistent tensor shares an arena buffer and all
  // buffers that have been kept fit.
  lemma MemoryExactlyWhenNothingStranded(p: ArenaPlanner)
    requires FullyExecuted(p) && ReadsHaveSources(p.graph, p.tensors)
    ensures (forall x | Used(p, x) :: HasMemory(p, x))
            <==> AllFit(p) && forall x :: !Stranded(p.tensors, p.actualTensorId, x)
  {
    hide Spread, PersistentSpread, RecordsQueued, PlanKept, TemporariesDisjoint, QueuedAtFirstUse, WellFormed;
    hide Tables.Outgrows;
    forall x | Used(p, x)
      ensures HasMemory(p, x) <==> !Stranded(p.tensors, p.actualTensorId, x) && !Outgrown(TablesOf(p), x)
      ensures AllFit(p) ==> !Outgrown(TablesOf(p), x)
    {
      MemoryUnlessStranded(p, x);
      if x in p.actualTensorId {
        assert TablesOf(p).Housed(x, |p.graph.nodes| - 1);
        OwnerIsHoused(p, x);
      }
    }
    if x :| Stranded(p.tensors, p.actualTensorId, x) {
      AliasIsUsed(p, x);
    }
  }

  // ---- The layout

  // An alias that no longer holds is left out; where execution has not dropped it, the
  // tensor has no bytes.
  ghost function LayoutOf(p: ArenaPlanner): Layout
    reads p
  {
    var records, persistent := p.allocs, p.persistentRecords;
    Layout(p.thePlan, p.tensors,
           map x | x in p.actualTensorId && KeepsSharing(p.tensors, p.actualTensorId, x) :: p.actualTensorId[x],
           p.allocNode, p.deallocNode,
           (x: int) => if 0 <= x < |records| && x !in persistent then records[x].offset else 0)
  }

  // x points to where the layout has it, inside the committed block.
  ghost predicate LiesInLayout(p: ArenaPlanner, x: int)
    reads p, p.arena
  {
    var l := LayoutOf(p);
    && 0 <= x < |p.data| && p.data[x] == InArena(p.arena.base + l.offset(l.Owner(x)))
    && p.arena.committed && 0 <= l.offset(l.Owner(x)) && l.offset(l.Owner(x)) + l.Bytes(x) <= p.arena.bufferSize
  }

  lemma PointsIntoLayout(p: ArenaPlanner, x: int)
    requires FullyExecuted(p) && ReadsHaveSources(p.graph, p.tensors) && Used(p, x) && LayoutOf(p).InArena(x)
    requires !Outgrown(TablesOf(p), x)
    ensures LiesInLayout(p, x)
  {
    hide Spread, PersistentSpread, RecordsQueued, PlanKept, TemporariesDisjoint, QueuedAtFirstUse, WellFormed;
    MemoryUnlessStranded(p, x);
    assert TablesOf(p).Housed(x, |p.graph.nodes| - 1);
  }

  lemma AllocatedIsQueued(p: ArenaPlanner, x: int)
    requires FullyExecuted(p) && 0 <= x < |p.tensors| && p.allocNode[x] != NOT_ASSIGNED
    ensures Queued(p.nodesToTensors, x, 0, |p.graph.nodes| - 1)
  {
    var g := p.graph;
    if i :| UsesTemporary(g, i, x) {
      assert x in p.nodesToTensors[i];
    } else {
      assert AllocatedAt(g, p.allocNode[x], x, |g.nodes|);
      assert Sourced(g, x);
      SourcedIsQueued(p, x);
    }
  }

  lemma LayoutCarriesOut(p: ArenaPlanner)
    requires FullyExecuted(p) && ReadsHaveSources(p.graph, p.tensors)
    ensures CarriesOut(LayoutOf(p))
  {
    hide WellFormed, InRange, AllocatedAt, ReleasedAt, AliasesUpTo, Spread, PersistentSpread, RecordsQueued, Aliases;
    hide Tables.Housed, QueuedAtFirstUse, TemporariesDisjoint, Sourced, Tidy, ArenaTensorsOnly, QueueKept;
    var l, g := LayoutOf(p), p.graph;
    assert forall x | x in l.aliases :: KeepsSharing(p.tensors, p.actualTensorId, x);
  }

  lemma LayoutIsPlaced(p: ArenaPlanner)
    requires FullyExecuted(p) && AllFit(p)
    ensures ValidPlacement(LayoutOf(p))
  {
    hide AllFit, DisjointBuffers, Spread, PersistentSpread, RecordsQueued, ArenaTensorsOnly, Tables.Housed, Tidy;
    var l := LayoutOf(p);
    forall v, w | v != w && l.InArena(v) && l.InArena(w) && l.Owner(v) == v && l.Owner(w) == w
                  && l.allocNode[v] != NOT_ASSIGNED && l.allocNode[w] != NOT_ASSIGNED
                  && l.allocNode[v] <= l.deallocNode[w] && l.allocNode[w] <= l.deallocNode[v]
      ensures DisjointBuffers(l, v, w)
    {
      OwnBuffer(p, v);
      OwnBuffer(p, w);
      MeetingBuffersApart(p, v, w);
    }
  }

  lemma MeetingBuffersApart(p: ArenaPlanner, v: int, w: int)
    requires p.Placed(p.lastActiveNode) && p.Grown() && v != w && 0 <= v < |p.tensors| && 0 <= w < |p.tensors|
    requires IsPlanned(p, v) && IsPlanned(p, w)
    requires p.allocNode[v] <= p.deallocNode[w] && p.allocNode[w] <= p.deallocNode[v]
    ensures DisjointBuffers(LayoutOf(p), v, w)
  {
    hide PersistentSpread, RecordsQueued, ArenaTensorsOnly, KeepsSharing;
    assert p.tensors[v].bytes > 0 ==> Recorded(p.persistentRecords, p.allocs, v);
    assert p.tensors[w].bytes > 0 ==> Recorded(p.persistentRecords, p.allocs, w);
  }

  // x has a record of exactly its planned lifetime, unless it has no bytes.
  ghost predicate IsPlanned(p: ArenaPlanner, x: int)
    requires p.Grown() && 0 <= x < |p.tensors|
    reads p
  {
    if p.tensors[x].bytes == 0 then LayoutOf(p).offset(x) == 0
    else && p.allocs[x] == Alloc(p.allocs[x].offset, p.tensors[x].bytes, x, p.allocNode[x], p.deallocNode[x])
         && x !in p.persistentRecords
  }

  // A tensor that owns its buffer has a record of exactly its planned lifetime.
  lemma OwnBuffer(p: ArenaPlanner, x: int)
    requires FullyExecuted(p) && AllFit(p) && LayoutOf(p).InArena(x) && LayoutOf(p).Owner(x) == x
    requires p.allocNode[x] != NOT_ASSIGNED
    ensures IsPlanned(p, x)
  {
    hide WellFormed, InRange, AllocatedAt, ReleasedAt, AliasesUpTo, Spread, PersistentSpread, RecordsQueued;
    AllocatedIsQueued(p, x);
    assert p.tensors[x].bytes > 0 ==> Used(p, x) && !TablesOf(p).Misfit(x);
    assert TablesOf(p).Housed(x, |p.graph.nodes| - 1);
    assert Flat(p.actualTensorId);
  }

  // If all buffers fit, the planner's memory is a layout the graph can be run in exactly if
  // no persistent tensor shares an arena buffer.
  lemma PlannedMemoryIsReadyToRun(p: ArenaPlanner)
    requires FullyExecuted(p) && ReadsHaveSources(p.graph, p.tensors) && AllFit(p)
    ensures ReadyToRun(LayoutOf(p)) <==> forall x :: !Stranded(p.tensors, p.actualTensorId, x)
  {
    LayoutCarriesOut(p);
    LayoutIsPlaced(p);
    hide CarriesOut, ValidPlacement, WellFormed, InRange, TemporariesDisjoint, Spread, PersistentSpread, RecordsQueued;
    var l := LayoutOf(p);
    assert forall x :: Stranded(p.tensors, p.actualTensorId, x) <==>
        x in l.aliases && 0 <= x < |l.tensors| && l.tensors[x].allocationType == ArenaRwPersistent
        && l.InArena(l.aliases[x]) && l.Bytes(x) > 0;
  }

  // The whole story: if no late reader of an alias gets in the way, no persistent tensor
  // shares an arena buffer and all buffers that have been kept fit, running the graph in the
  // memory that planning gave it is running it with private buffers.
  lemma PlannedGraphRunsCorrectly(p: ArenaPlanner, start: Memory, kernel: Kernel, scratch: Kernel)
    requires FullyExecuted(p) && ReadsHaveSources(p.graph, p.tensors) && AllFit(p)
    requires forall x :: !Stranded(p.tensors, p.actualTensorId, x)
    requires NoLateReaders(p.thePlan, Aliases(p.thePlan)) && PassesThrough(LayoutOf(p), kernel)
    ensures PreservesMeaning(LayoutOf(p), start, kernel, scratch)
  {
    PlannedMemoryIsReadyToRun(p);
    InPlaceSafety(p.thePlan);
    MemoryPlanningPreservesMeaning(LayoutOf(p), start, kernel, scratch);
  }

  // ---- Whole calls

  lemma FreshPlanHolds(p: ArenaPlanner)
    requires p.Planned() && p.thePlan == p.CurrentPlan()
    requires WellFormed(p.graph)
    ensures PlanKept(p.thePlan, p.actualTensorId, p.allocNode, p.deallocNode, p.nodesToTensors)
    ensures QueuedAtFirstUse(p.nodesToTensors, p.allocNode)
  {
    var g := p.graph;
    forall k | 0 <= k < |p.nodesToTensors|
      ensures QueueKept(g, p.nodesToTensors[k], k)
      ensures forall x | x in p.nodesToTensors[k] :: 0 <= x < |p.allocNode| && p.allocNode[x] == k
    {
      assert ExactQueue(g, p.nodesToTensors[k], k);
      forall x | x in p.nodesToTensors[k]
        ensures 0 <= x < |p.allocNode| && p.allocNode[x] == k
      {
        assert StartsAt(g, x, k);
        StartsInRange(g, |p.tensors|, x, k);
        assert AllocatedAt(g, p.allocNode[x], x, |g.nodes|);
      }
    }
    hide WellFormed, InRange, AllocatedAt;
    forall x | 0 <= x < |p.allocNode|
      ensures AllocatedAt(g, p.allocNode[x], x, |g.nodes|)
      ensures !p.preserveAllTensors ==> ReleasedAt(g, Aliases(p.thePlan), p.deallocNode[x], x)
    {
    }
  }

  lemma StartsInRange(g: Graph, numTensors: nat, x: int, k: int)
    requires InRange(g, numTensors) && StartsAt(g, x, k)
    ensures 0 <= x < numTensors
  {
  }

  // A fresh plan for a graph in dependency order can be executed.
  lemma FreshPlanIsReady(p: ArenaPlanner)
    requires p.Valid() && p.Planned() && WellFormed(p.graph)
    requires p.allocs == seq(|p.tensors|, _ => NO_ALLOC) && p.persistentRecords == {}
    requires p.arena.activeAllocs == p.persistentArena.activeAllocs == []
    ensures p.Ready() && p.Placed(NOT_ASSIGNED) && p.NothingPlaced()
  {
    AliasMapIsSound(p.CurrentPlan());
    AliasesInRange(p.CurrentPlan(), |p.graph.nodes|);
    forall k | 0 <= k < |p.nodesToTensors|
      ensures forall x | x in p.nodesToTensors[k] :: 0 <= x < |p.tensors|
    {
      assert ExactQueue(p.graph, p.nodesToTensors[k], k);
      forall x | x in p.nodesToTensors[k]
        ensures 0 <= x < |p.tensors|
      {
        assert StartsAt(p.graph, x, k);
        StartsInRange(p.graph, |p.tensors|, x, k);
      }
    }
  }

  // Between planning and execution the operators settle the types and sizes of the
  // tensors and may add temporaries to the table.
  method SettleTensors(p: ArenaPlanner, prepared: seq<Tensor>)
    requires p.Valid() && p.Planned() && p.thePlan == p.CurrentPlan() && |p.tensors| <= |prepared|
    requires WellFormed(p.graph) && TemporariesDisjoint(p.graph, |prepared|)
    requires p.allocs == seq(|p.tensors|, _ => NO_ALLOC)
    requires p.arena.activeAllocs == p.persistentArena.activeAllocs == []
    requires p.persistentRecords == {}
    modifies p`tensors, p`data
    ensures p.tensors == prepared && Executed(p, -1) && Emptied(p)
  {
    hide WellFormed, InRange, TemporariesDisjoint, PlanKept, QueuedAtFirstUse, ExactAllocation, ExactRelease, ExactQueue;
    FreshPlanHolds(p);
    FreshPlanIsReady(p);
    p.tensors := prepared;
    p.data := seq(|prepared|, _ => Null);
  }

  // No alias has been dropped that the tensors allow.
  ghost predicate SharesAllOf(p: ArenaPlanner, aliases: AliasMap)
    reads p
  {
    forall x | KeepsSharing(p.tensors, aliases, x) :: x in p.actualTensorId
  }

  ghost predicate SharesAllItCan(p: ArenaPlanner)
    requires p.thePlan.Valid()
    reads p
  {
    SharesAllOf(p, Aliases(p.thePlan))
  }

  // The arenas have been emptied.
  ghost predicate Emptied(p: ArenaPlanner)
    reads p, p.arena, p.persistentArena
  {
    && p.persistentRecords == {} && (forall a | a in p.allocs :: a == NO_ALLOC)
    && p.arena.activeAllocs == p.persistentArena.activeAllocs == []
  }

  // The sizes cannot overflow, and the alignment is one that the arenas can give.
  predicate Affordable(p: ArenaPlanner, tensors: seq<Tensor>) {
    && 0 < p.tensorAlignment <= p.arena.bufferAlignment && p.tensorAlignment <= p.persistentArena.bufferAlignment
    && |tensors| * (p.tensorAlignment + LargestTensor(tensors)) <= SIZE_MAX
  }

  function RoomOf(tensors: seq<Tensor>): Room { Room(0, LargestTensor(tensors), |tensors|) }

  // Executing a plan over all nodes in one call, with nothing left from before.
  method ExecuteAll(p: ArenaPlanner, grant: Grant) returns (status: Status)
    requires Executed(p, -1) && Emptied(p) && p.graph.nodes != [] && TemporariesInRange(p.graph, |p.tensors|)
    modifies p`allocs, p`allocNode, p`deallocNode, p`nodesToTensors, p`actualTensorId,
             p`persistentRecords, p`lastActiveNode, p`data, p.arena, p.persistentArena
    ensures status.Ok? ==> FullyExecuted(p) && AllFit(p) && AllSized(p) && SharesAllOf(p, old(p.actualTensorId))
    // A tensor is given memory and pointed there exactly if it is not stranded, which can
    // be told from the aliases and the tensors.
    ensures status.Ok? && ReadsHaveSources(p.graph, p.tensors) ==>
              forall x | Used(p, x) :: HasMemory(p, x) <==> !Stranded(p.tensors, old(p.actualTensorId), x)
    ensures status.Ok? && ReadsHaveSources(p.graph, p.tensors) ==>
              forall x | Used(p, x) && LayoutOf(p).InArena(x) :: LiesInLayout(p, x)
    ensures status.Ok? ==>
              forall x :: Stranded(p.tensors, p.actualTensorId, x) <==> Stranded(p.tensors, old(p.actualTensorId), x)
    ensures Affordable(p, p.tensors) && grant.granted && grant.persistentGranted ==>
              status.Ok? && p.RoomFor(RoomOf(p.tensors).Filled(p.tensorAlignment))
  {
    hide Executed, ReadsHaveSources, Used, HasMemory, LiesInLayout, LayoutOf, Stranded;
    ghost var t := TablesOf(p);
    if Affordable(p, p.tensors) {
      EmptyHasRoom(p);
    }
    status := ExecuteNext(p, 0, |p.graph.nodes| - 1, grant, RoomOf(p.tensors));
    if status.Ok? {
      MemoryOfEmptied(p, t);
    }
  }

  lemma EmptyHasRoom(p: ArenaPlanner)
    requires Emptied(p) && Affordable(p, p.tensors)
    ensures p.RoomFor(RoomOf(p.tensors))
  {
  }

  // What the interpreter does with a graph all of whose nodes can be prepared at once:
  // plan, let the operators settle their tensors, execute the plan over all nodes.
  method PlanAndExecute(p: ArenaPlanner, prepared: seq<Tensor>, grant: Grant) returns (status: Status)
    requires p.Valid() && p.graph.nodes != [] && |p.tensors| <= |prepared|
    requires WellFormed(p.graph) && TemporariesDisjoint(p.graph, |prepared|)
    requires TemporariesInRange(p.graph, |prepared|)
    modifies p, p.arena, p.persistentArena
    ensures p.graph == old(p.graph) && p.thePlan == old(p.CurrentPlan()) && p.tensors == prepared
    ensures status.Ok? ==> FullyExecuted(p) && AllFit(p) && AllSized(p) && SharesAllItCan(p)
    // A tensor is given memory and pointed there exactly if it is not stranded, which can
    // be told from the plan and the prepared tensors.
    ensures status.Ok? && ReadsHaveSources(p.graph, prepared) ==>
              forall x | Used(p, x) :: HasMemory(p, x) <==> !Stranded(prepared, Aliases(p.thePlan), x)
    // Arena tensors are where the layout has them.
    ensures status.Ok? && ReadsHaveSources(p.graph, prepared) ==>
              forall x | Used(p, x) && LayoutOf(p).InArena(x) :: LiesInLayout(p, x)
    ensures status.Ok? ==>
              forall x :: Stranded(prepared, p.actualTensorId, x) <==> Stranded(prepared, Aliases(p.thePlan), x)
    // Planning never fails; execution fails only if sizes can overflow, the alignment is
    // none that the arenas can give, or memory is refused.
    ensures Affordable(p, prepared) && grant.granted && grant.persistentGranted ==>
              status.Ok? && p.RoomFor(RoomOf(prepared).Filled(p.tensorAlignment))
  {
    hide AllFit, AllSized, FullyExecuted, Used, HasMemory, LiesInLayout, LayoutOf, Stranded, Queued, NeedsMemory, Executed;
    hide WellFormed, InRange, TemporariesDisjoint, SharesAllOf, Affordable, Aliases;
    status := p.PlanAllocations();
    SettleTensors(p, prepared);
    status := ExecuteAll(p, grant);
  }

  // ---- Executing the plan again

  lemma InRangeInLarger(g: Graph, numTensors: nat, larger: nat)
    requires InRange(g, numTensors) && numTensors <= larger
    ensures InRange(g, larger)
  {
    forall i | 0 <= i < |g.nodes|
      ensures NodeInRange(g.nodes[i], larger)
    {
      assert NodeInRange(g.nodes[i], numTensors);
    }
  }

  // After an input has been resized, the interpreter forgets all memory, but not the plan.
  method StartOver(p: ArenaPlanner, ghost before: int)
    requires Executed(p, before)
    modifies p`allocs, p`persistentRecords, p`lastActiveNode, p.arena, p.persistentArena
    ensures Executed(p, -1) && Emptied(p)
  {
    hide WellFormed, InRange, TemporariesDisjoint, QueuedAtFirstUse, Flat, KeepsSharing, AllocatedAt, ReleasedAt, QueueKept;
    hide Aliases, UsesTemporary, SameArena, Tables.HasOwn, Tables.HasKept, Tables.Misfit;
    InRangeInLarger(p.graph, |p.thePlan.tensors|, |p.tensors|);
    p.ResetAllocations();
  }

  // It then prepares the nodes again and executes the old plan with the new sizes.
  method ExecuteFromStart(p: ArenaPlanner, prepared: seq<Tensor>, grant: Grant, ghost before: int)
    returns (status: Status)
    requires Executed(p, before) && p.graph.nodes != []
    requires Settles(p.graph, p.tensors, prepared, -1) && TemporariesInRange(p.graph, |prepared|)
    modifies p`allocs, p`allocNode, p`deallocNode, p`nodesToTensors, p`actualTensorId,
             p`persistentRecords, p`lastActiveNode, p`tensors, p`data, p.arena, p.persistentArena
    ensures p.tensors == prepared
    ensures status.Ok? ==> FullyExecuted(p) && AllFit(p) && AllSized(p) && SharesAllOf(p, old(p.actualTensorId))
    ensures status.Ok? && ReadsHaveSources(p.graph, prepared) ==>
              forall x | Used(p, x) :: HasMemory(p, x) <==> !Stranded(prepared, old(p.actualTensorId), x)
    ensures Affordable(p, prepared) && grant.granted && grant.persistentGranted ==> status.Ok?
  {
    hide Executed, AllFit, AllSized, FullyExecuted, Used, HasMemory, Stranded, SharesAllOf, Affordable, Settles;
    StartOver(p, before);
    Settle(p, prepared, -1);
    status := ExecuteAll(p, grant);
  }

  // After the output of a dynamic operator has got its size, the interpreter forgets the
  // memory of the nodes after it and allocates them again.
  method Replan(p: ArenaPlanner, node: int, last: int, grant: Grant, ghost room: Room) returns (status: Status)
    requires p.Ready() && p.Grown() && |p.data| == |p.tensors| && 0 <= node < last < |p.nodesToTensors|
    requires TemporariesInRange(p.graph, |p.tensors|)
    requires p.HoldsPlan() && p.Placed(p.lastActiveNode)
    modifies p`allocs, p`allocNode, p`deallocNode, p`nodesToTensors, p`actualTensorId,
             p`persistentRecords, p`lastActiveNode, p`data, p.arena, p.persistentArena
    ensures status.Ok? ==> p.Ready() && p.Grown() && p.HoldsPlan() && p.Placed(last)
    // Whatever was first used at or before the node stays exactly where it was.
    ensures status.Ok? ==> forall x | 0 <= x < |p.tensors| && Queued(old(p.nodesToTensors), x, 0, node) ::
              p.allocs[x] == old(p.allocs)[x]
    // A persistent tensor that has memory keeps it.
    ensures status.Ok? ==> forall x | 0 <= x < |p.tensors| && p.tensors[x].allocationType == ArenaRwPersistent
                                      && old(p.allocs)[x].size > 0 ::
              p.allocs[x] == old(p.allocs)[x]
  {
    hide WellFormed, InRange, TemporariesDisjoint, PlanKept, Spread, PersistentSpread, ArenaTensorsOnly, KeepsSharing;
    hide Tidy, EndsBelow, NothingMisplaced, Flat, SameArena, NeedsMemory, Settled, Queued, RecordsQueued, QueuedAtFirstUse;
    hide ArenaPlanner.ArenasValid, ArenaPlanner.Placed;
    ghost var queues, records := p.nodesToTensors, p.allocs;
    EarlyRecordsStay(p, node);
    p.ResetAllocationsAfter(node);
    ghost var kept, persistent, aliases := p.allocs, p.persistentRecords, p.actualTensorId;
    assert p.InSequence(node + 1, last) by { p.PlacedLater(node, node + 1); }
    status := p.ExecuteAllocations(node + 1, last, grant, room);
    if status.Ok? {
      forall x | 0 <= x < |p.tensors|
        ensures Queued(queues, x, 0, node) ==> p.allocs[x] == records[x]
        ensures p.tensors[x].allocationType == ArenaRwPersistent && kept[x].size > 0 ==> p.allocs[x] == kept[x]
      {
        assert p.HoldingAt(x).record == p.allocs[x] && HoldingOf(kept, persistent, x).record == kept[x];
        SettledKeeps(p.tensors, p.allocNode, p.deallocNode, x, aliases, HoldingOf(kept, persistent, x), p.HoldingAt(x));
        if Queued(queues, x, 0, node) {
          QueuedOnce(queues, p.nodesToTensors, p.allocNode, x, node, last);
        }
      }
    }
  }

  // The same with everything known about a plan that has been executed: the operators of
  // the later nodes may have given their tensors other sizes and types.
  method ExecuteAgain(p: ArenaPlanner, node: int, last: int, prepared: seq<Tensor>, grant: Grant,
                      ghost before: int, ghost room: Room)
    returns (status: Status)
    requires Executed(p, before) && 0 <= node <= before && node < last < |p.graph.nodes|
    requires Settles(p.graph, p.tensors, prepared, node) && TemporariesInRange(p.graph, |prepared|)
    modifies p`allocs, p`allocNode, p`deallocNode, p`nodesToTensors, p`actualTensorId,
             p`persistentRecords, p`lastActiveNode, p`tensors, p`data, p.arena, p.persistentArena
    ensures status.Ok? ==> Executed(p, last) && p.Grown() && p.tensors == prepared
    // Which buffers do not fit can be told from the records that are left and the prepared
    // tensors.
    ensures status.Ok? ==> FollowsFrom(TablesOf(p), old(LeftAfter(TablesOf(p), node)).(tensors := prepared))
    // After the last node, exactly these tensors and the stranded ones have no memory.
    ensures status.Ok? && last == |p.graph.nodes| - 1 && ReadsHaveSources(p.graph, prepared) ==>
              forall x | Used(p, x) :: HasMemory(p, x) <==>
                && !Stranded(prepared, old(p.actualTensorId), x)
                && !Outgrown(old(LeftAfter(TablesOf(p), node)).(tensors := prepared), x)
    ensures && old(p.RoomFor(room)) && |prepared| <= room.count && (forall t | t in prepared :: t.bytes <= room.largest)
            && NothingMisplaced(prepared, old(p.persistentRecords), old(p.allocs))
            && grant.granted && grant.persistentGranted
            ==> status.Ok? && p.RoomFor(room.Filled(p.tensorAlignment))
  {
    hide Settles, HasMemory, Used, ReadsHaveSources, Stranded, Outgrown, FollowsFrom, Executed;
    Forget(p, node, before);
    Settle(p, prepared, node);
    ghost var t := TablesOf(p);
    assert t == old(LeftAfter(TablesOf(p), node)).(tensors := prepared);
    status := ExecuteNext(p, node + 1, last, grant, room);
    if status.Ok? && last == |p.graph.nodes| - 1 && ReadsHaveSources(p.graph, prepared) {
      MemoryTold(p, t);
    }
  }

  lemma OutgrownAsBefore(t': Tables, t: Tables, x: int)
    requires FollowsFrom(t', t) && 0 <= x < |t.tensors|
    ensures t'.Outgrows(x) <==> t.Outgrows(x)
  {
    if t.Misfit(x) && t.tensors[x].allocationType == ArenaRwPersistent {
      assert t.Keeps(x);
    }
  }

  // Whether x has memory can be told from the tables before the last call.
  lemma MemoryAsBefore(p: ArenaPlanner, t: Tables, x: int)
    requires FullyExecuted(p) && ReadsHaveSources(p.graph, p.tensors) && Used(p, x) && FollowsFrom(TablesOf(p), t)
    ensures HasMemory(p, x) <==> !Stranded(p.tensors, t.aliases, x) && !Outgrown(t, x)
  {
    hide Spread, PersistentSpread, RecordsQueued, PlanKept, TemporariesDisjoint, QueuedAtFirstUse, WellFormed;
    hide HasMemory, Tables.Outgrows, Tidy;
    MemoryUnlessStranded(p, x);
    OutgrownAsBefore(TablesOf(p), t, x);
    if x in t.aliases && KeepsSharing(p.tensors, t.aliases, x) {
      OutgrownAsBefore(TablesOf(p), t, t.aliases[x]);
    }
  }

  lemma MemoryTold(p: ArenaPlanner, t: Tables)
    requires FullyExecuted(p) && ReadsHaveSources(p.graph, p.tensors) && FollowsFrom(TablesOf(p), t)
    ensures forall x | Used(p, x) :: HasMemory(p, x) <==> !Stranded(p.tensors, t.aliases, x) && !Outgrown(t, x)
  {
    hide HasMemory, Outgrown, Stranded, FollowsFrom, Queued, ReadsHaveSources, Tables.Housed, Spread, PersistentSpread;
    forall x | Used(p, x)
      ensures HasMemory(p, x) <==> !Stranded(p.tensors, t.aliases, x) && !Outgrown(t, x)
    {
      MemoryAsBefore(p, t, x);
    }
  }

  // Nothing has been left from before.
  lemma MemoryOfEmptied(p: ArenaPlanner, t: Tables)
    requires FullyExecuted(p) && FollowsFrom(TablesOf(p), t) && t.persistent == {}
    ensures AllFit(p) && AllSized(p)
    ensures ReadsHaveSources(p.graph, p.tensors) ==>
              && (forall x | Used(p, x) :: HasMemory(p, x) <==> !Stranded(p.tensors, t.aliases, x))
              && (forall x | Used(p, x) && LayoutOf(p).InArena(x) :: LiesInLayout(p, x))
    ensures forall x :: Stranded(p.tensors, p.actualTensorId, x) <==> Stranded(p.tensors, t.aliases, x)
  {
    hide HasMemory, LiesInLayout, LayoutOf, Executed, Queued, ReadsHaveSources;
    if ReadsHaveSources(p.graph, p.tensors) {
      MemoryTold(p, t);
      forall x | Used(p, x) && LayoutOf(p).InArena(x)
        ensures LiesInLayout(p, x)
      {
        PointsIntoLayout(p, x);
      }
    }
  }

  // Resetting erases nothing that is queued at or before the node.
  lemma EarlyRecordsStay(p: ArenaPlanner, node: int)
    requires p.Ready() && p.Grown() && p.HoldsPlan() && p.Placed(p.lastActiveNode)
    ensures forall x | 0 <= x < |p.tensors| && Queued(p.nodesToTensors, x, 0, node)
                       && p.allocs[x].size > 0 :: p.allocs[x].firstNode <= node
  {
    hide WellFormed, InRange, TemporariesDisjoint, PlanKept, Spread, PersistentSpread;
  }

  lemma QueuedOnce(queues: seq<set<int>>, queues': seq<set<int>>, allocNode: seq<int>, x: int, node: int, last: int)
    requires |queues| == |queues'| && forall k | 0 <= k < |queues| :: queues[k] <= queues'[k]
    requires QueuedAtFirstUse(queues', allocNode) && Queued(queues, x, 0, node)
    ensures !Queued(queues', x, node + 1, last)
  {
    var k :| 0 <= k < |queues| && 0 <= k <= node && x in queues[k];
    assert x in queues'[k];
  }
}
