/**
  How the mutexes of variable inputs are acquired: every mutex once, in the order of their
  addresses, and all of them before sparse access is enabled.
 */
module VariableLocking {
  import opened Options

  // Mutexes and variables are named by their addresses; 0 is null. A resource variable owns its
  // mutex, a reference input has a mutex only. Looking up a resource may fail.
  type Mutex = nat
  type Var = nat

  datatype Input = Input(isResource: bool, found: bool, variable: Var, mutex: Mutex)

  // GetTrainingVariableMutex
  function MutexOf(input: Input): (Option<Var>, Mutex) {
    if input.isResource then
      if input.found then (Some(input.variable), input.mutex) else (None, 0)
    else (None, input.mutex)
  }

  // A reference input locks the mutex it comes with, a resource the mutex of its variable; a
  // resource that is not found locks nothing.
  ghost predicate Demands(inputs: seq<Input>, m: Mutex) {
    exists i :: 0 <= i < |inputs| && (inputs[i].isResource ==> inputs[i].found) && inputs[i].mutex == m
  }

  ghost predicate Finds(inputs: seq<Input>, v: Var) {
    exists i :: 0 <= i < |inputs| && inputs[i].isResource && inputs[i].found && inputs[i].variable == v
  }

  ghost predicate Increasing(s: seq<Mutex>) {
    forall i, j | 0 <= i < j < |s| :: s[i] < s[j]
  }

  ghost predicate Distinct(s: seq<Mutex>) {
    forall i, j | 0 <= i < j < |s| :: s[i] != s[j]
  }

  ghost predicate SortedBy(order: seq<nat>, mutexes: seq<Mutex>)
    requires forall i | 0 <= i < |order| :: order[i] < |mutexes|
  {
    forall i, j | 0 <= i < j < |order| :: mutexes[order[i]] < mutexes[order[j]]
  }

  lemma InsertKeepsMembers(sorted: seq<nat>, at: nat, x: nat)
    requires at <= |sorted|
    ensures forall k :: k in sorted[..at] + [x] + sorted[at..] <==> k in sorted || k == x
  {
    var s := sorted[..at] + [x] + sorted[at..];
    forall k | k in sorted
      ensures k in s
    {
      var i :| 0 <= i < |sorted| && sorted[i] == k;
      assert s[if i < at then i else i + 1] == k;
    }
    assert s[at] == x;
  }

  lemma InsertKeepsSorted(sorted: seq<nat>, at: nat, x: nat, mutexes: seq<Mutex>)
    requires at <= |sorted| && x < |mutexes| && forall i | 0 <= i < |sorted| :: sorted[i] < |mutexes|
    requires SortedBy(sorted, mutexes)
    requires at > 0 ==> mutexes[sorted[at - 1]] < mutexes[x]
    requires at < |sorted| ==> mutexes[x] < mutexes[sorted[at]]
    ensures var s := sorted[..at] + [x] + sorted[at..];
            (forall i | 0 <= i < |s| :: s[i] < |mutexes|) && SortedBy(s, mutexes)
  {
    var s := sorted[..at] + [x] + sorted[at..];
    assert forall i | 0 <= i < |s| :: s[i] == if i < at then sorted[i] else if i == at then x else sorted[i - 1];
    forall i, j | 0 <= i < j < |s|
      ensures mutexes[s[i]] < mutexes[s[j]]
    {
      if i < at && at < j {
        assert mutexes[sorted[i]] < mutexes[sorted[j - 1]];
      }
    }
  }

  // The comparison sort on acquire_order, as an insertion sort.
  method SortByAddress(order: seq<nat>, mutexes: seq<Mutex>) returns (sorted: seq<nat>)
    requires Distinct(mutexes) && |order| == |mutexes| && forall k | 0 <= k < |order| :: order[k] == k
    ensures forall i | 0 <= i < |sorted| :: sorted[i] < |mutexes|
    ensures SortedBy(sorted, mutexes)
    ensures forall k: nat | k < |mutexes| :: k in sorted
  {
    sorted := [];
    for n := 0 to |order|
      invariant forall k: nat :: k in sorted <==> k < n
      invariant forall i | 0 <= i < |sorted| :: sorted[i] < |mutexes|
      invariant SortedBy(sorted, mutexes)
    {
      var at := 0;
      while at < |sorted| && mutexes[sorted[at]] < mutexes[order[n]]
        invariant at <= |sorted|
        invariant at > 0 ==> mutexes[sorted[at - 1]] < mutexes[n]
      {
        at := at + 1;
      }
      assert at < |sorted| ==> sorted[at] in sorted;
      InsertKeepsMembers(sorted, at, n);
      InsertKeepsSorted(sorted, at, n, mutexes);
      sorted := sorted[..at] + [order[n]] + sorted[at..];
    }
  }

  ghost predicate AnyResource(inputs: seq<Input>) {
    exists i :: 0 <= i < |inputs| && inputs[i].isResource
  }

  lemma DemandedMutexes(inputs: seq<Input>, m: Mutex)
    ensures m != 0 ==> (Demands(inputs, m) <==> exists i :: 0 <= i < |inputs| && MutexOf(inputs[i]).1 == m)
  {
    if m != 0 && Demands(inputs, m) {
      var i :| 0 <= i < |inputs| && (inputs[i].isResource ==> inputs[i].found) && inputs[i].mutex == m;
      assert MutexOf(inputs[i]).1 == m;
    }
  }

  lemma FoundVariables(inputs: seq<Input>, v: Var)
    ensures Finds(inputs, v) <==> exists i :: 0 <= i < |inputs| && MutexOf(inputs[i]).0 == Some(v)
  {
    if Finds(inputs, v) {
      var i :| 0 <= i < |inputs| && inputs[i].isResource && inputs[i].found && inputs[i].variable == v;
      assert MutexOf(inputs[i]).0 == Some(v);
    }
  }

  // TF_MaybeLockVariableInputMutexesInOrder up to the point where the locks are held. The
  // out-parameter acquired lists the mutexes in the order in which they are locked.
  method LockInputsInOrder(inputs: seq<Input>, doLock: bool) returns (vars: seq<Var>, acquired: seq<Mutex>)
    // What is locked, and which variables are found, over the fields of the inputs.
    ensures forall m :: m in acquired <==> m != 0 && Demands(inputs, m) && (doLock || AnyResource(inputs))
    ensures forall v :: v in vars <==> Finds(inputs, v)
    ensures Increasing(acquired)
    // In particular the mutex of every variable that is found, unless it is null.
    ensures forall i | 0 <= i < |inputs| && inputs[i].isResource && inputs[i].found && inputs[i].mutex != 0 ::
              inputs[i].mutex in acquired
  {
    var anyResource := false;
    for i := 0 to |inputs|
      invariant !anyResource && forall k | 0 <= k < i :: !inputs[k].isResource
    {
      if inputs[i].isResource {
        anyResource := true;
        break;
      }
    }
    if !doLock && !anyResource {
      return [], [];
    }
    assert doLock || AnyResource(inputs);
    hide Finds, Increasing, Distinct, AnyResource;
    var mutexes, acquireOrder;
    vars, mutexes, acquireOrder := CollectMutexes(inputs);
    acquired := Acquire(mutexes, acquireOrder);
    forall i | 0 <= i < |inputs| && inputs[i].isResource && inputs[i].found && inputs[i].mutex != 0
      ensures inputs[i].mutex in acquired
    {
      assert Demands(inputs, inputs[i].mutex);
    }
  }

  // Its first loop: each mutex once.
  method CollectMutexes(inputs: seq<Input>) returns (vars: seq<Var>, mutexes: seq<Mutex>, acquireOrder: seq<nat>)
    ensures Distinct(mutexes) && |acquireOrder| == |mutexes|
    ensures forall k | 0 <= k < |acquireOrder| :: acquireOrder[k] == k
    ensures forall m :: m != 0 ==> (m in mutexes <==> Demands(inputs, m))
    ensures forall v :: v in vars <==> Finds(inputs, v)
  {
    vars, mutexes, acquireOrder := [], [], [];
    for i := 0 to |inputs|
      invariant Distinct(mutexes) && |acquireOrder| == |mutexes|
      invariant forall k | 0 <= k < |acquireOrder| :: acquireOrder[k] == k
      invariant forall m :: m in mutexes <==> exists k :: 0 <= k < i && MutexOf(inputs[k]).1 == m
      invariant forall v :: v in vars <==> exists k :: 0 <= k < i && MutexOf(inputs[k]).0 == Some(v)
    {
      var (variable, mutex) := MutexOf(inputs[i]);
      if variable.Some? {
        vars := vars + [variable.value];
      }
      if mutex !in mutexes {
        acquireOrder := acquireOrder + [|mutexes|];
        mutexes := mutexes + [mutex];
      }
    }
    forall m: Mutex | m != 0
      ensures m in mutexes <==> Demands(inputs, m)
    {
      DemandedMutexes(inputs, m);
    }
    forall v: Var
      ensures v in vars <==> Finds(inputs, v)
    {
      FoundVariables(inputs, v);
    }
  }

  // The rest: the mutexes are locked by increasing address, and a null mutex is left out.
  method Acquire(mutexes: seq<Mutex>, order: seq<nat>) returns (acquired: seq<Mutex>)
    requires Distinct(mutexes) && |order| == |mutexes| && forall k | 0 <= k < |order| :: order[k] == k
    ensures forall m :: m in acquired <==> m != 0 && m in mutexes
    ensures Increasing(acquired)
  {
    var acquireOrder := SortByAddress(order, mutexes);
    acquired := [];
    for i := 0 to |acquireOrder|
      invariant forall m :: m in acquired <==> m != 0 && exists k :: 0 <= k < i && mutexes[acquireOrder[k]] == m
      invariant Increasing(acquired)
      invariant i < |acquireOrder| ==> forall k | 0 <= k < |acquired| :: acquired[k] < mutexes[acquireOrder[i]]
    {
      var mu := mutexes[acquireOrder[i]];
      if mu != 0 {
        acquired := acquired + [mu];
      }
    }
    forall m
      ensures m in acquired <==> m != 0 && m in mutexes
    {
      if m in mutexes {
        var k :| 0 <= k < |mutexes| && mutexes[k] == m;
        assert k in acquireOrder;
      }
    }
  }
}
