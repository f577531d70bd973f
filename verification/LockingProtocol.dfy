/**
  Threads that take variable mutexes only through the ordered acquire, as a step machine:
  they never deadlock, and while a thread holds the mutexes of a sparse request its sparse
  reads find copy-on-read mode on and do not lock a mutex again.
 */
module LockingProtocol {
  import opened VariableLocking

  type ThreadId = nat

  // order lists the mutexes to lock; vars are the mutexes of the resource variables among them.
  datatype Request = Request(order: seq<Mutex>, exclusive: bool, sparse: bool, vars: set<Mutex>)

  datatype Thread =
    | Idle
    | Acquiring(req: Request, next: nat)        // holds order[..next]
    | Enabling(req: Request, todo: set<Mutex>)  // makes its variables sparse, one by one
    | Holding(req: Request)
    | Relocking(req: Request, mutex: Mutex)     // a sparse read that waits for a mutex of its own request

  // The variables in copy-on-read mode, by their mutexes.
  datatype State = State(threads: map<ThreadId, Thread>, copyOnRead: set<Mutex>)

  function ThreadOf(st: State, t: ThreadId): Thread {
    if t in st.threads then st.threads[t] else Idle
  }

  function Goto(st: State, t: ThreadId, thread: Thread): State {
    st.(threads := st.threads[t := thread])
  }

  ghost predicate Holds(thread: Thread, m: Mutex) {
    match thread
    case Idle => false
    case Acquiring(req, next) => next <= |req.order| && m in req.order[..next]
    case Enabling(req, _) => m in req.order
    case Holding(req) => m in req.order
    case Relocking(req, _) => m in req.order
  }

  // A mutex is held by one thread exclusively, or by any number of threads shared.
  ghost predicate Free(st: State, m: Mutex, exclusive: bool) {
    forall u: ThreadId :: Holds(ThreadOf(st, u), m) ==> !exclusive && !ThreadOf(st, u).req.exclusive
  }

  // ---- Steps

  // What LockInputsInOrder computes from the inputs of the kernel, by RequestOf.
  ghost predicate Ordered(req: Request) {
    Increasing(req.order) && forall m | m in req.vars :: m in req.order
  }

  // The request of a kernel: it locks what its inputs demand, each mutex once and in increasing
  // order, and the mutexes of its resource variables are among them.
  method RequestOf(inputs: seq<Input>, doLock: bool, sparse: bool) returns (req: Request)
    ensures Ordered(req) && req.exclusive == doLock && req.sparse == sparse
    ensures forall m :: m in req.order <==>
              m != 0 && Demands(inputs, m) && (doLock || AnyResource(inputs))
    ensures forall m :: m in req.vars <==>
              m != 0 && exists i :: 0 <= i < |inputs| && inputs[i].isResource && inputs[i].found && inputs[i].mutex == m
  {
    var _, acquired := LockInputsInOrder(inputs, doLock);
    var own := set i | 0 <= i < |inputs| && inputs[i].isResource && inputs[i].found && inputs[i].mutex != 0
                 :: inputs[i].mutex;
    req := Request(acquired, doLock, sparse, own);
  }

  ghost predicate Start(st: State, st': State, t: ThreadId, req: Request) {
    ThreadOf(st, t).Idle? && Ordered(req) && st' == Goto(st, t, Acquiring(req, 0))
  }

  predicate Waits(thread: Thread) {
    thread.Acquiring? && thread.next < |thread.req.order|
  }

  function Wanted(thread: Thread): Mutex
    requires Waits(thread)
  {
    thread.req.order[thread.next]
  }

  ghost predicate Lock(st: State, st': State, t: ThreadId) {
    && Waits(ThreadOf(st, t))
    && var Acquiring(req, next) := ThreadOf(st, t);
       Free(st, req.order[next], req.exclusive) && st' == Goto(st, t, Acquiring(req, next + 1))
  }

  ghost predicate AllLocked(st: State, st': State, t: ThreadId) {
    && ThreadOf(st, t).Acquiring? && !Waits(ThreadOf(st, t))
    && var req := ThreadOf(st, t).req;
       st' == Goto(st, t, if req.sparse then Enabling(req, req.vars) else Holding(req))
  }

  // EnsureSparseVariableAccess with the lock held.
  ghost predicate Enable(st: State, st': State, t: ThreadId, m: Mutex) {
    && ThreadOf(st, t).Enabling? && m in ThreadOf(st, t).todo
    && var Enabling(req, todo) := ThreadOf(st, t);
       st' == Goto(st.(copyOnRead := st.copyOnRead + {m}), t, Enabling(req, todo - {m}))
  }

  ghost predicate AllEnabled(st: State, st': State, t: ThreadId) {
    && ThreadOf(st, t).Enabling? && ThreadOf(st, t).todo == {}
    && st' == Goto(st, t, Holding(ThreadOf(st, t).req))
  }

  // EnsureSparseVariableAccess without the lock, for a variable of the thread's own request: it
  // returns early in copy-on-read mode and goes for the mutex otherwise.
  ghost predicate SparseRead(st: State, st': State, t: ThreadId, m: Mutex) {
    && ThreadOf(st, t).Holding? && m in ThreadOf(st, t).req.vars
    && st' == if m in st.copyOnRead then st else Goto(st, t, Relocking(ThreadOf(st, t).req, m))
  }

  ghost predicate Relock(st: State, st': State, t: ThreadId) {
    && ThreadOf(st, t).Relocking?
    && var Relocking(req, m) := ThreadOf(st, t);
       Free(st, m, true) && st' == Goto(st.(copyOnRead := st.copyOnRead + {m}), t, Holding(req))
  }

  ghost predicate Release(st: State, st': State, t: ThreadId) {
    ThreadOf(st, t).Holding? && st' == Goto(st, t, Idle)
  }

  // Another kernel turns the mode on or off, with the mutex of the variable to itself.
  ghost predicate Toggle(st: State, st': State, t: ThreadId, m: Mutex, on: bool) {
    && ThreadOf(st, t).Idle? && Free(st, m, true)
    && st' == st.(copyOnRead := if on then st.copyOnRead + {m} else st.copyOnRead - {m})
  }

  // A thread that is in a request goes on.
  ghost predicate Proceed(st: State, st': State, t: ThreadId) {
    || Lock(st, st', t) || AllLocked(st, st', t)
    || (exists m :: Enable(st, st', t, m)) || AllEnabled(st, st', t)
    || (exists m :: SparseRead(st, st', t, m)) || Relock(st, st', t) || Release(st, st', t)
  }

  ghost predicate Step(st: State, st': State, t: ThreadId) {
    || Proceed(st, st', t)
    || (exists req :: Start(st, st', t, req))
    || (exists m, on :: Toggle(st, st', t, m, on))
  }

  ghost predicate Next(st: State, st': State) {
    exists t: ThreadId :: Step(st, st', t)
  }

  ghost predicate IsRun(run: seq<State>) {
    && run != [] && run[0].threads == map[]
    && forall i | 0 <= i < |run| - 1 :: Next(run[i], run[i + 1])
  }

  // ---- What every step keeps

  ghost predicate ThreadInv(st: State, t: ThreadId) {
    var thread := ThreadOf(st, t);
    match thread
    case Idle => true
    case Acquiring(req, next) => Ordered(req) && next <= |req.order|
    case Enabling(req, todo) => Ordered(req) && req.sparse && todo <= req.vars && req.vars - todo <= st.copyOnRead
    case Holding(req) => Ordered(req) && (req.sparse ==> req.vars <= st.copyOnRead)
    case Relocking(req, m) => Ordered(req) && !req.sparse && m in req.vars
  }

  ghost predicate Inv(st: State) {
    forall t: ThreadId :: ThreadInv(st, t)
  }

  lemma ToggleKeepsInv(st: State, st': State, t: ThreadId, m: Mutex, on: bool)
    requires Inv(st) && Toggle(st, st', t, m, on)
    ensures Inv(st')
  {
    forall u: ThreadId
      ensures ThreadInv(st', u)
    {
      assert ThreadInv(st, u);
      assert !Holds(ThreadOf(st, u), m);
    }
  }

  lemma StepKeepsInv(st: State, st': State, t: ThreadId)
    requires Inv(st) && Step(st, st', t)
    ensures Inv(st')
  {
    hide Toggle;
    if m, on :| Toggle(st, st', t, m, on) {
      ToggleKeepsInv(st, st', t, m, on);
    } else {
      forall u: ThreadId
        ensures ThreadInv(st', u)
      {
        assert ThreadInv(st, u) && ThreadInv(st, t);
      }
    }
  }

  lemma {:induction false} RunsKeepInv(run: seq<State>, i: nat)
    requires IsRun(run) && i < |run|
    ensures Inv(run[i])
  {
    hide Inv, Step;
    if i == 0 {
      assert Inv(run[0]) by {
        StartInv(run[0]);
      }
    } else {
      RunsKeepInv(run, i - 1);
      assert Next(run[i - 1], run[i]);
      var t: ThreadId :| Step(run[i - 1], run[i], t);
      StepKeepsInv(run[i - 1], run[i], t);
    }
  }

  lemma StartInv(st: State)
    requires st.threads == map[]
    ensures Inv(st)
  {
    assert forall t: ThreadId :: ThreadOf(st, t).Idle?;
  }

  // ---- Mutual exclusion

  // Two threads hold one mutex only if both share it.
  ghost predicate Exclusion(st: State) {
    forall t: ThreadId, u: ThreadId, m | t != u && Holds(ThreadOf(st, t), m) && Holds(ThreadOf(st, u), m) ::
      !ThreadOf(st, t).req.exclusive
  }

  // A step takes at most the mutex that was free for it, and leaves its thread's request alone.
  lemma TakenIsFree(st: State, st': State, t: ThreadId, m: Mutex)
    requires Step(st, st', t) && Inv(st) && Holds(ThreadOf(st', t), m)
    ensures Holds(ThreadOf(st, t), m) || Free(st, m, ThreadOf(st', t).req.exclusive)
    ensures Holds(ThreadOf(st, t), m) ==> ThreadOf(st', t).req == ThreadOf(st, t).req
  {
    assert ThreadInv(st, t);
    hide Free, Inv, ThreadInv, Toggle;
    if k, on :| Toggle(st, st', t, k, on) {
      ToggleLeavesThreads(st, st', t, k, on);
    } else if Lock(st, st', t) {
      var Acquiring(req, next) := ThreadOf(st, t);
      assert req.order[..next + 1] == req.order[..next] + [req.order[next]];
    } else if AllLocked(st, st', t) {
      var req := ThreadOf(st, t).req;
      assert req.order[..|req.order|] == req.order;
    }
  }

  lemma ToggleLeavesThreads(st: State, st': State, t: ThreadId, m: Mutex, on: bool)
    requires Toggle(st, st', t, m, on)
    ensures forall u: ThreadId :: ThreadOf(st', u) == ThreadOf(st, u)
  {
  }

  lemma StepLeavesOthers(st: State, st': State, t: ThreadId, u: ThreadId)
    requires Step(st, st', t) && u != t
    ensures ThreadOf(st', u) == ThreadOf(st, u)
  {
    hide Free;
  }

  lemma StepKeepsExclusion(st: State, st': State, t: ThreadId)
    requires Step(st, st', t) && Inv(st) && Exclusion(st)
    ensures Exclusion(st')
  {
    hide Step, Inv;
    forall a: ThreadId, b: ThreadId, m | a != b && Holds(ThreadOf(st', a), m) && Holds(ThreadOf(st', b), m)
      ensures !ThreadOf(st', a).req.exclusive
    {
      if a != t {
        StepLeavesOthers(st, st', t, a);
      } else {
        TakenIsFree(st, st', t, m);
      }
      if b != t {
        StepLeavesOthers(st, st', t, b);
      } else {
        TakenIsFree(st, st', t, m);
      }
    }
  }

  // A mutex is held by one thread alone, or shared by threads that have all asked to share it.
  lemma {:induction false} MutualExclusion(run: seq<State>, i: nat)
    requires IsRun(run) && i < |run|
    ensures Exclusion(run[i])
  {
    hide Exclusion, Step;
    if i == 0 {
      NobodyHolds(run[0]);
    } else {
      MutualExclusion(run, i - 1);
      RunsKeepInv(run, i - 1);
      assert Next(run[i - 1], run[i]);
      var t: ThreadId :| Step(run[i - 1], run[i], t);
      StepKeepsExclusion(run[i - 1], run[i], t);
    }
  }

  lemma NobodyHolds(st: State)
    requires st.threads == map[]
    ensures Exclusion(st)
  {
    assert forall t: ThreadId :: ThreadOf(st, t).Idle?;
  }

  // ---- Sparse reads under a sparse request return early

  lemma SparseReadsReturnEarly(run: seq<State>, i: nat, st': State, t: ThreadId, m: Mutex)
    requires IsRun(run) && i < |run| && SparseRead(run[i], st', t, m) && ThreadOf(run[i], t).req.sparse
    ensures m in run[i].copyOnRead && st' == run[i]
  {
    RunsKeepInv(run, i);
    assert ThreadInv(run[i], t);
  }

  // A sparse read that does go for the mutex of its own request never gets it.
  lemma RelockingNeverEnds(run: seq<State>, i: nat, t: ThreadId)
    requires IsRun(run) && i < |run| && ThreadOf(run[i], t).Relocking?
    ensures !ThreadOf(run[i], t).req.sparse && !exists st' :: Step(run[i], st', t)
  {
    var st := run[i];
    RunsKeepInv(run, i);
    assert ThreadInv(st, t);
    assert Holds(ThreadOf(st, t), ThreadOf(st, t).mutex);
  }

  // Without the sparse flag it does happen: a thread that locks a variable for a dense update
  // and then reads it sparsely waits for itself.
  lemma DenseHolderGetsStuck() returns (run: seq<State>)
    ensures IsRun(run) && |run| == 5 && ThreadOf(run[4], 0) == Relocking(Request([1], true, false, {1}), 1)
  {
    var req := Request([1], true, false, {1});
    var s0 := State(map[], {});
    var s1 := Goto(s0, 0, Acquiring(req, 0));
    var s2 := Goto(s1, 0, Acquiring(req, 1));
    var s3 := Goto(s2, 0, Holding(req));
    var s4 := Goto(s3, 0, Relocking(req, 1));
    assert Start(s0, s1, 0, req) && Step(s0, s1, 0);
    assert Free(s1, 1, true);
    assert Lock(s1, s2, 0) && Step(s1, s2, 0);
    assert AllLocked(s2, s3, 0) && Step(s2, s3, 0);
    assert SparseRead(s3, s4, 0, 1) && Step(s3, s4, 0);
    run := [s0, s1, s2, s3, s4];
    assert Next(s0, s1) && Next(s1, s2) && Next(s2, s3) && Next(s3, s4);
  }

  // ---- Deadlock freedom

  // Locks may be granted more sparingly: a reader may have to wait for a writer that waits.
  ghost predicate FreeWithoutQueue(st: State, t: ThreadId)
    requires Waits(ThreadOf(st, t))
  {
    var thread := ThreadOf(st, t);
    && Free(st, Wanted(thread), thread.req.exclusive)
    && (!thread.req.exclusive ==>
          forall u: ThreadId :: Waits(ThreadOf(st, u)) && Wanted(ThreadOf(st, u)) == Wanted(thread) ==>
                                !ThreadOf(st, u).req.exclusive)
  }

  // The thread can take a step that needs no mutex, or gets the mutex even in a queue.
  ghost predicate CanMove(st: State, t: ThreadId) {
    || ThreadOf(st, t).Enabling? || ThreadOf(st, t).Holding?
    || (ThreadOf(st, t).Acquiring? && (!Waits(ThreadOf(st, t)) || FreeWithoutQueue(st, t)))
  }

  lemma CanMoveProceeds(st: State, t: ThreadId)
    requires CanMove(st, t)
    ensures exists st' :: Proceed(st, st', t)
  {
    match ThreadOf(st, t)
    case Acquiring(req, next) =>
      if next < |req.order| {
        var st' := Goto(st, t, Acquiring(req, next + 1));
        assert Lock(st, st', t) && Proceed(st, st', t);
      } else {
        var st' := Goto(st, t, if req.sparse then Enabling(req, req.vars) else Holding(req));
        assert AllLocked(st, st', t) && Proceed(st, st', t);
      }
    case Enabling(req, todo) =>
      if todo == {} {
        assert AllEnabled(st, Goto(st, t, Holding(req)), t) && Proceed(st, Goto(st, t, Holding(req)), t);
      } else {
        var m :| m in todo;
        var st' := Goto(st.(copyOnRead := st.copyOnRead + {m}), t, Enabling(req, todo - {m}));
        assert Enable(st, st', t, m) && Proceed(st, st', t);
      }
    case Holding(req) =>
      assert Release(st, Goto(st, t, Idle), t) && Proceed(st, Goto(st, t, Idle), t);
  }

  // How far along a waiting thread is: by the mutex it wants, writers after readers.
  function Rank(thread: Thread): nat
    requires Waits(thread)
  {
    2 * Wanted(thread) + if thread.req.exclusive then 1 else 0
  }

  // Among finitely many waiting threads, one is the farthest along.
  lemma {:induction false} FarthestAlong(st: State, waiting: set<ThreadId>) returns (t: ThreadId)
    requires waiting != {} && forall u | u in waiting :: Waits(ThreadOf(st, u))
    ensures t in waiting && forall u | u in waiting :: Rank(ThreadOf(st, u)) <= Rank(ThreadOf(st, t))
    decreases waiting
  {
    var any :| any in waiting;
    if waiting == {any} {
      t := any;
    } else {
      assert waiting - {any} != {} by {
        assert waiting == {any} + (waiting - {any});
      }
      t := FarthestAlong(st, waiting - {any});
      if Rank(ThreadOf(st, t)) < Rank(ThreadOf(st, any)) {
        t := any;
      }
    }
  }

  // Nobody who waits holds a mutex as far along as the one that it wants.
  lemma WaitersHoldEarlierOnes(st: State, u: ThreadId, m: Mutex)
    requires ThreadInv(st, u) && Waits(ThreadOf(st, u)) && Holds(ThreadOf(st, u), m)
    ensures m < Wanted(ThreadOf(st, u))
  {
    var Acquiring(req, next) := ThreadOf(st, u);
    var k :| 0 <= k < next && req.order[k] == m;
  }

  // If everybody in a request waits, the one that is the farthest along gets its mutex.
  lemma FarthestMoves(st: State, waiting: set<ThreadId>) returns (t: ThreadId)
    requires Inv(st) && waiting != {}
    requires forall u: ThreadId :: (u in waiting <==> !ThreadOf(st, u).Idle?) && (u in waiting ==> Waits(ThreadOf(st, u)))
    ensures CanMove(st, t)
  {
    t := FarthestAlong(st, waiting);
    var thread := ThreadOf(st, t);
    forall u: ThreadId | Holds(ThreadOf(st, u), Wanted(thread))
      ensures false
    {
      assert u in waiting && ThreadInv(st, u);
      WaitersHoldEarlierOnes(st, u, Wanted(thread));
    }
  }

  // Deadlock freedom: if some thread is in a request and none has gone for a mutex of its own
  // request again, then some thread can take its next step.
  lemma NeverDeadlocked(run: seq<State>, i: nat, t: ThreadId)
    requires IsRun(run) && i < |run| && !ThreadOf(run[i], t).Idle?
    requires forall u: ThreadId :: !ThreadOf(run[i], u).Relocking?
    ensures exists u: ThreadId :: CanMove(run[i], u) && exists st' :: Proceed(run[i], st', u)
  {
    var st := run[i];
    RunsKeepInv(run, i);
    if busy: ThreadId :| !ThreadOf(st, busy).Idle? && !Waits(ThreadOf(st, busy)) {
      assert CanMove(st, busy);
      CanMoveProceeds(st, busy);
    } else {
      var waiting := set u | u in st.threads && !ThreadOf(st, u).Idle?;
      assert t in waiting;
      var u := FarthestMoves(st, waiting);
      CanMoveProceeds(st, u);
    }
  }
}
