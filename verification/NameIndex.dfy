/**
  The C API's index from names to the operations of a graph, and iteration over the
  operations. Node ids are never reused; removing a node leaves a gap.
 */
module NameIndex {
  import opened Options

  type NodeId = nat

  // Every graph starts with its source and its sink, which are no operations.
  const NUM_SENTINELS := 2

  predicate IsLive(nodes: seq<Option<string>>, id: NodeId) {
    NUM_SENTINELS <= id < |nodes| && nodes[id].Some?
  }

  // Live ids in [lo, hi), in increasing order.
  function LiveIds(nodes: seq<Option<string>>, lo: nat, hi: nat): seq<NodeId>
  {
    if hi <= lo then []
    else LiveIds(nodes, lo, hi - 1) + if IsLive(nodes, hi - 1) then [hi - 1] else []
  }

  // The map holds exactly the names of the live operations; so no two of them share a name.
  ghost predicate IsIndex(nodes: seq<Option<string>>, nameMap: map<string, NodeId>) {
    forall name, id: NodeId :: (name in nameMap && nameMap[name] == id) <==> (IsLive(nodes, id) && nodes[id] == Some(name))
  }

  lemma {:induction false} GapsAreSkipped(nodes: seq<Option<string>>, lo: nat, mid: nat, hi: nat)
    requires lo <= mid <= hi <= |nodes| && forall i | lo <= i < mid :: nodes[i].None?
    ensures LiveIds(nodes, lo, hi) == LiveIds(nodes, mid, hi)
    decreases hi
  {
    if mid < hi {
      GapsAreSkipped(nodes, lo, mid, hi - 1);
    } else if lo < mid {
      GapsAreSkipped(nodes, lo, mid - 1, hi - 1);
    }
  }

  lemma {:induction false} FirstLiveId(nodes: seq<Option<string>>, lo: nat, hi: nat)
    requires lo < hi <= |nodes| && IsLive(nodes, lo)
    ensures LiveIds(nodes, lo, hi) == [lo] + LiveIds(nodes, lo + 1, hi)
  {
    if lo + 1 < hi {
      FirstLiveId(nodes, lo, hi - 1);
    }
  }

  lemma {:induction false} LiveIdsExact(nodes: seq<Option<string>>, lo: nat, hi: nat)
    ensures forall id: NodeId :: id in LiveIds(nodes, lo, hi) <==> lo <= id < hi && IsLive(nodes, id)
    ensures forall i, j | 0 <= i < j < |LiveIds(nodes, lo, hi)| :: LiveIds(nodes, lo, hi)[i] < LiveIds(nodes, lo, hi)[j]
  {
    if lo < hi {
      LiveIdsExact(nodes, lo, hi - 1);
      var front, all := LiveIds(nodes, lo, hi - 1), LiveIds(nodes, lo, hi);
      hide LiveIds;
      assert forall i | 0 <= i < |front| :: front[i] in front;
      assert forall id: NodeId :: id in all <==> id in front || (id == hi - 1 && IsLive(nodes, hi - 1));
    }
  }

  lemma IndexGap(nodes: seq<Option<string>>, nameMap: map<string, NodeId>, gap: seq<Option<string>>)
    requires IsIndex(nodes, nameMap) && forall i | 0 <= i < |gap| :: gap[i].None?
    ensures IsIndex(nodes + gap, nameMap)
    ensures forall id: NodeId :: IsLive(nodes + gap, id) <==> IsLive(nodes, id)
  {
    forall id: NodeId
      ensures IsLive(nodes + gap, id) <==> IsLive(nodes, id)
      ensures IsLive(nodes, id) ==> (nodes + gap)[id] == nodes[id]
    {
      assert |nodes| <= id < |nodes + gap| ==> (nodes + gap)[id] == gap[id - |nodes|];
    }
  }

  lemma IndexNew(nodes: seq<Option<string>>, nameMap: map<string, NodeId>, name: string)
    requires |nodes| >= NUM_SENTINELS && IsIndex(nodes, nameMap) && name !in nameMap
    ensures IsIndex(nodes + [Some(name)], nameMap[name := |nodes|])
    ensures forall id: NodeId :: IsLive(nodes + [Some(name)], id) <==> IsLive(nodes, id) || id == |nodes|
  {
    var nodes', nameMap' := nodes + [Some(name)], nameMap[name := |nodes|];
    forall other, id: NodeId
      ensures (other in nameMap' && nameMap'[other] == id) <==> (IsLive(nodes', id) && nodes'[id] == Some(other))
    {
      if id < |nodes| {
        assert nodes'[id] == nodes[id];
        assert (other in nameMap && nameMap[other] == id) <==> (IsLive(nodes, id) && nodes[id] == Some(other));
      }
    }
  }

  class Graph {
    var nodes: seq<Option<string>>   // by id; None once the node has been removed
    var nameMap: map<string, NodeId>

    ghost predicate Valid()
      reads this
    {
      |nodes| >= NUM_SENTINELS && IsIndex(nodes, nameMap)
    }

    constructor ()
      ensures Valid() && nameMap == map[] && nodes == [Some("_SOURCE"), Some("_SINK")]
      ensures Live() == map[]
    {
      nodes, nameMap := [Some("_SOURCE"), Some("_SINK")], map[];
    }

    // The live operations with their names.
    ghost function Live(): map<NodeId, string>
      reads this
    {
      map id: NodeId | id < |nodes| && IsLive(nodes, id) :: nodes[id].value
    }

    // TF_FinishOperationLocked: finalized tells whether the node builder succeeds, refined
    // whether shape inference then does.
    method FinishOperation(name: string, finalized: bool, refined: bool) returns (ret: Option<NodeId>)
      requires Valid()
      modifies this
      ensures Valid()
      ensures ret.Some? <==> name !in old(nameMap) && finalized && refined
      ensures ret.Some? ==> ret.value == old(|nodes|) && nameMap == old(nameMap)[name := ret.value]
                            && Live() == old(Live())[ret.value := name]
      ensures ret.None? ==> nameMap == old(nameMap) && Live() == old(Live())
      ensures old(nodes) <= nodes
    {
      ret := None;
      if name in nameMap {
        return;
      }
      if finalized {
        ret := Some(|nodes|);
        nodes := nodes + [Some(name)];
        if refined {
          nameMap := nameMap[name := ret.value];
          IndexNew(old(nodes), old(nameMap), name);
        } else {
          nodes := nodes[ret.value := None];
          ret := None;
          assert nodes == old(nodes) + [None];
          IndexGap(old(nodes), nameMap, [None]);
        }
      }
    }

    // GraphImportGraphDefLocked, once the importer has made the batch of nodes. The importer
    // makes names that are new and distinct; on failure it takes its nodes out again.
    method ImportGraphDef(batch: seq<Option<string>>, imported: bool)
      requires Valid()
      requires forall i | 0 <= i < |batch| && batch[i].Some? :: batch[i].value !in nameMap
      requires forall i, j | 0 <= i < j < |batch| && batch[i].Some? && batch[j].Some? :: batch[i] != batch[j]
      modifies this
      ensures Valid()
      ensures nodes == old(nodes) + if imported then batch else seq(|batch|, _ => None)
      ensures !imported ==> nameMap == old(nameMap) && Live() == old(Live())
    {
      var lastNodeId := |nodes|;
      if !imported {
        nodes := nodes + seq(|batch|, _ => None);
        IndexGap(old(nodes), nameMap, seq(|batch|, _ => None));
        return;
      }
      nodes := nodes + batch;
      var i := lastNodeId;
      while i < |nodes|
        invariant lastNodeId <= i <= |nodes|
        invariant nodes == old(nodes) + batch
        invariant IsIndex(nodes[..i], nameMap)
        invariant forall name | name in nameMap ::
                    name in old(nameMap) || exists j :: 0 <= j < i - lastNodeId && batch[j] == Some(name)
      {
        assert nodes[i] == batch[i - lastNodeId];
        if nodes[i].Some? {
          IndexNew(nodes[..i], nameMap, nodes[i].value);
          nameMap := nameMap[nodes[i].value := i];
        } else {
          IndexGap(nodes[..i], nameMap, [nodes[i]]);
        }
        assert nodes[..i] + [nodes[i]] == nodes[..i + 1];
        i := i + 1;
      }
      assert nodes[..i] == nodes;
    }

    // TF_GraphOperationByName
    method OperationByName(name: string) returns (ret: Option<NodeId>)
      requires Valid()
      ensures ret.Some? ==> IsLive(nodes, ret.value) && nodes[ret.value] == Some(name)
      ensures ret.None? ==> forall id: NodeId | IsLive(nodes, id) :: nodes[id] != Some(name)
    {
      if name in nameMap {
        ret := Some(nameMap[name]);
      } else {
        ret := None;
      }
    }

    // TF_GraphNextOperation
    method NextOperation(pos: nat) returns (next: nat, node: Option<NodeId>)
      ensures next > pos && next >= NUM_SENTINELS
      ensures node.Some? <==> next < |nodes|
      ensures node.Some? ==> node == Some(next) && nodes[next].Some?
      ensures forall i | (if pos == 0 then NUM_SENTINELS else pos + 1) <= i < next && i < |nodes| :: nodes[i].None?
    {
      if pos == 0 {
        next := pos + NUM_SENTINELS;
      } else {
        next := pos + 1;
      }
      ghost var start := next;
      while next < |nodes|
        invariant start <= next
        invariant forall i | start <= i < next && i < |nodes| :: nodes[i].None?
      {
        if nodes[next].Some? {
          return next, Some(next);
        }
        next := next + 1;
      }
      node := None;
    }

    // The documented way to iterate: start from 0 and go on until there is no operation left.
    method Operations() returns (ids: seq<NodeId>)
      requires |nodes| >= NUM_SENTINELS
      ensures ids == LiveIds(nodes, NUM_SENTINELS, |nodes|)
    {
      ids := [];
      var pos, node := NextOperation(0);
      SkipTo(nodes, NUM_SENTINELS, pos);
      while node.Some?
        invariant NUM_SENTINELS <= pos && (node.Some? <==> pos < |nodes|)
        invariant node.Some? ==> node == Some(pos) && nodes[pos].Some?
        invariant LiveIds(nodes, NUM_SENTINELS, |nodes|) == ids + LiveIds(nodes, pos, |nodes|)
        decreases |nodes| - pos
      {
        ids := ids + [node.value];
        FirstLiveId(nodes, pos, |nodes|);
        ghost var after := pos + 1;
        pos, node := NextOperation(pos);
        SkipTo(nodes, after, pos);
      }
    }
  }

  lemma SkipTo(nodes: seq<Option<string>>, start: nat, next: nat)
    requires start <= |nodes| && start <= next && forall i | start <= i < next && i < |nodes| :: nodes[i].None?
    ensures LiveIds(nodes, start, |nodes|) == LiveIds(nodes, next, |nodes|)
  {
    GapsAreSkipped(nodes, start, if next < |nodes| then next else |nodes|, |nodes|);
  }
}
