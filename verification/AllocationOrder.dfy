/**
  The order in which ArenaPlanner chooses offsets: whole-run tensors first, then by
  size, then by first use.
 */
module AllocationOrder {
  import opened TfLiteGraph

  // Some enumeration of a set; the order is left open.
  method Elements(s: set<int>) returns (list: seq<int>)
    ensures (forall x :: x in list <==> x in s) && |list| == |s|
  {
    list := [];
    var rest := s;
    while rest != {}
      invariant rest <= s && |list| + |rest| == |s|
      invariant forall x :: x in list <==> x in s && x !in rest
    {
      NonEmptyHasElement(rest);
      var x :| x in rest;
      list, rest := list + [x], rest - {x};
    }
  }

  lemma SameElements(s: set<int>, t: set<int>)
    requires forall x :: x in s <==> x in t
    ensures s == t
  {
    assert (forall x :: x in s <==> x in t) ==> s == t;
  }

  lemma NonEmptyHasElement(s: set<int>)
    ensures s == {} || exists x :: x in s
  {
    assert (forall x :: x !in s) ==> s == {};
  }

  predicate AllTensors(s: seq<int>, numTensors: nat) {
    forall j | 0 <= j < |s| :: 0 <= s[j] < numTensors
  }

  // ---- The order in which offsets are chosen

  predicate WholeRun(allocNode: seq<int>, deallocNode: seq<int>, x: int)
    requires 0 <= x < |allocNode| == |deallocNode|
  {
    allocNode[x] == 0 && deallocNode[x] == NOT_ASSIGNED
  }

  // The comparator handed to std::sort.
  predicate AllocatedBefore(tensors: seq<Tensor>, allocNode: seq<int>, deallocNode: seq<int>, x: int, y: int)
    requires |allocNode| == |deallocNode| == |tensors| && 0 <= x < |tensors| && 0 <= y < |tensors|
  {
    if WholeRun(allocNode, deallocNode, x) then
      if WholeRun(allocNode, deallocNode, y) then x < y else true
    else if WholeRun(allocNode, deallocNode, y) then false
    else if tensors[x].bytes != tensors[y].bytes then tensors[x].bytes > tensors[y].bytes
    else allocNode[x] < allocNode[y]
  }

  ghost predicate InAllocationOrder(tensors: seq<Tensor>, allocNode: seq<int>, deallocNode: seq<int>, s: seq<int>)
    requires |allocNode| == |deallocNode| == |tensors|
  {
    && AllTensors(s, |tensors|)
    && forall j, k | 0 <= j < k < |s| :: !AllocatedBefore(tensors, allocNode, deallocNode, s[k], s[j])
  }

  // What the order means: tensors needed for the whole run come first, by index, then the
  // others from large to small, those of one size in the order of their first use.
  lemma OrderInFields(tensors: seq<Tensor>, allocNode: seq<int>, deallocNode: seq<int>, s: seq<int>)
    requires |allocNode| == |deallocNode| == |tensors| && AllTensors(s, |tensors|)
    ensures InAllocationOrder(tensors, allocNode, deallocNode, s) <==>
            forall j, k | 0 <= j < k < |s| ::
              if allocNode[s[j]] == 0 && deallocNode[s[j]] == NOT_ASSIGNED
              then allocNode[s[k]] == 0 && deallocNode[s[k]] == NOT_ASSIGNED ==> s[j] <= s[k]
              else && !(allocNode[s[k]] == 0 && deallocNode[s[k]] == NOT_ASSIGNED)
                   && tensors[s[j]].bytes >= tensors[s[k]].bytes
                   && (tensors[s[j]].bytes == tensors[s[k]].bytes ==> allocNode[s[j]] <= allocNode[s[k]])
  {
  }

  // std::sort needs a strict weak ordering.
  lemma AllocatedBeforeIsStrictWeakOrder(tensors: seq<Tensor>, allocNode: seq<int>, deallocNode: seq<int>,
                                         x: int, y: int, z: int)
    requires |allocNode| == |deallocNode| == |tensors|
    requires 0 <= x < |tensors| && 0 <= y < |tensors| && 0 <= z < |tensors|
    ensures !AllocatedBefore(tensors, allocNode, deallocNode, x, x)
    ensures AllocatedBefore(tensors, allocNode, deallocNode, x, y) && AllocatedBefore(tensors, allocNode, deallocNode, y, z)
            ==> AllocatedBefore(tensors, allocNode, deallocNode, x, z)
    ensures !AllocatedBefore(tensors, allocNode, deallocNode, x, y) && !AllocatedBefore(tensors, allocNode, deallocNode, y, z)
            ==> !AllocatedBefore(tensors, allocNode, deallocNode, x, z)
  {
  }

  // Puts x behind everything that must not come after it.
  method InsertForAllocation(tensors: seq<Tensor>, allocNode: seq<int>, deallocNode: seq<int>, s: seq<int>, x: int)
    returns (longer: seq<int>)
    requires |allocNode| == |deallocNode| == |tensors| && 0 <= x < |tensors|
    requires InAllocationOrder(tensors, allocNode, deallocNode, s)
    ensures multiset(longer) == multiset(s) + multiset{x}
    ensures InAllocationOrder(tensors, allocNode, deallocNode, longer)
  {
    hide AllocatedBefore;
    var k := |s|;
    while k > 0 && AllocatedBefore(tensors, allocNode, deallocNode, x, s[k - 1])
      invariant 0 <= k <= |s|
      invariant forall j | k <= j < |s| :: AllocatedBefore(tensors, allocNode, deallocNode, x, s[j])
    {
      k := k - 1;
    }
    forall j | 0 <= j < k
      ensures !AllocatedBefore(tensors, allocNode, deallocNode, x, s[j])
    {
      AllocatedBeforeIsStrictWeakOrder(tensors, allocNode, deallocNode, x, s[k - 1], s[j]);
    }
    forall j | k <= j < |s|
      ensures !AllocatedBefore(tensors, allocNode, deallocNode, s[j], x)
    {
      AllocatedBeforeIsStrictWeakOrder(tensors, allocNode, deallocNode, x, s[j], x);
    }
    InsertedAt(tensors, allocNode, deallocNode, s, x, k);
    longer := s[..k] + [x] + s[k..];
  }

  lemma InsertedAt(tensors: seq<Tensor>, allocNode: seq<int>, deallocNode: seq<int>, s: seq<int>, x: int, k: nat)
    requires |allocNode| == |deallocNode| == |tensors| && 0 <= x < |tensors| && k <= |s|
    requires InAllocationOrder(tensors, allocNode, deallocNode, s)
    requires forall j | 0 <= j < k :: !AllocatedBefore(tensors, allocNode, deallocNode, x, s[j])
    requires forall j | k <= j < |s| :: !AllocatedBefore(tensors, allocNode, deallocNode, s[j], x)
    ensures InAllocationOrder(tensors, allocNode, deallocNode, s[..k] + [x] + s[k..])
    ensures multiset(s[..k] + [x] + s[k..]) == multiset(s) + multiset{x}
  {
    hide AllocatedBefore;
    var longer := s[..k] + [x] + s[k..];
    assert s == s[..k] + s[k..];
    forall i, j | 0 <= i < j < |longer|
      ensures !AllocatedBefore(tensors, allocNode, deallocNode, longer[j], longer[i])
    {
      if j < k {
        assert longer[i] == s[i] && longer[j] == s[j];
      } else if j == k {
        assert longer[i] == s[i] && longer[j] == x;
      } else if i == k {
        assert longer[i] == x && longer[j] == s[j - 1];
      } else {
        assert longer[i] == (if i < k then s[i] else s[i - 1]) && longer[j] == s[j - 1];
      }
    }
  }

  method SortForAllocation(tensors: seq<Tensor>, allocNode: seq<int>, deallocNode: seq<int>, list: seq<int>)
    returns (sorted: seq<int>)
    requires |allocNode| == |deallocNode| == |tensors| && AllTensors(list, |tensors|)
    ensures multiset(sorted) == multiset(list) && (forall x :: x in sorted <==> x in list)
    ensures InAllocationOrder(tensors, allocNode, deallocNode, sorted)
  {
    sorted := [];
    for i := 0 to |list|
      invariant multiset(sorted) == multiset(list[..i])
      invariant InAllocationOrder(tensors, allocNode, deallocNode, sorted)
    {
      assert list[..i + 1] == list[..i] + [list[i]];
      sorted := InsertForAllocation(tensors, allocNode, deallocNode, sorted, list[i]);
    }
    assert list[..|list|] == list;
    assert forall x :: x in sorted <==> x in multiset(sorted);
    assert forall x :: x in list <==> x in multiset(list);
  }
}
