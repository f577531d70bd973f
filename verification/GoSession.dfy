/**
  The Go binding's Session: any number of threads run it, set up and continue partial runs,
  and close it. Run, PartialRun.Run and NewPartialRun guard their C call in the same way.
 */
module GoSession {
  import opened Options

  type ThreadId = nat
  type Pointer = nat

  datatype Pc =
    | Idle
    | WantsToRun                            // waits for mu
    | Entering                              // holds mu
    | Entered                               // has counted itself in the wait group
    | InCall(argument: Option<Pointer>)     // in the C call on the session
    | Leaving                               // the C call has returned
    | WantsToClose                          // waits for mu
    | Draining                              // holds mu, waits for the wait group
    | Closing(argument: Option<Pointer>)    // holds mu, in TF_CloseSession
    | Deleting(argument: Option<Pointer>)   // holds mu, in TF_DeleteSession
    | Clearing                              // holds mu, the C session is gone

  datatype State = State(
    mu: Option<ThreadId>,
    wg: int,             // the counter of the wait group
    c: Option<Pointer>,  // nil once the session is closed
    deleted: nat,        // how often the C session has been deleted
    pcs: map<ThreadId, Pc>)

  function PcOf(st: State, t: ThreadId): Pc {
    if t in st.pcs then st.pcs[t] else Idle
  }

  function Goto(st: State, t: ThreadId, pc: Pc): State {
    st.(pcs := st.pcs[t := pc])
  }

  // ---- Steps of a guarded call

  ghost predicate Call(st: State, st': State, t: ThreadId) {
    PcOf(st, t).Idle? && (st' == Goto(st, t, WantsToRun) || st' == Goto(st, t, WantsToClose))
  }

  ghost predicate Lock(st: State, st': State, t: ThreadId) {
    && st.mu.None? && (PcOf(st, t).WantsToRun? || PcOf(st, t).WantsToClose?)
    && st' == Goto(st.(mu := Some(t)), t, if PcOf(st, t).WantsToRun? then Entering else Draining)
  }

  // "session is closed", or wg.Add(1)
  ghost predicate Enter(st: State, st': State, t: ThreadId) {
    && PcOf(st, t).Entering?
    && st' == if st.c.None? then Goto(st.(mu := None), t, Idle) else Goto(st.(mu := None, wg := st.wg + 1), t, Entered)
  }

  // The field is read without the mutex.
  ghost predicate EnterC(st: State, st': State, t: ThreadId) {
    PcOf(st, t).Entered? && st' == Goto(st, t, InCall(st.c))
  }

  ghost predicate LeaveC(st: State, st': State, t: ThreadId) {
    PcOf(st, t).InCall? && st' == Goto(st, t, Leaving)
  }

  ghost predicate Done(st: State, st': State, t: ThreadId) {
    PcOf(st, t).Leaving? && st' == Goto(st.(wg := st.wg - 1), t, Idle)
  }

  // ---- Steps of Close

  ghost predicate Drained(st: State, st': State, t: ThreadId) {
    && PcOf(st, t).Draining? && st.wg == 0
    && st' == if st.c.None? then Goto(st.(mu := None), t, Idle) else Goto(st, t, Closing(st.c))
  }

  // If TF_CloseSession fails, the session stays open.
  ghost predicate CloseFails(st: State, st': State, t: ThreadId) {
    PcOf(st, t).Closing? && st' == Goto(st.(mu := None), t, Idle)
  }

  ghost predicate CloseSucceeds(st: State, st': State, t: ThreadId) {
    PcOf(st, t).Closing? && st' == Goto(st, t, Deleting(st.c))
  }

  ghost predicate Delete(st: State, st': State, t: ThreadId) {
    PcOf(st, t).Deleting? && st' == Goto(st.(deleted := st.deleted + 1), t, Clearing)
  }

  ghost predicate Clear(st: State, st': State, t: ThreadId) {
    PcOf(st, t).Clearing? && st' == Goto(st.(c := None, mu := None), t, Idle)
  }

  ghost predicate Proceed(st: State, st': State, t: ThreadId) {
    || Lock(st, st', t) || Enter(st, st', t) || EnterC(st, st', t) || LeaveC(st, st', t) || Done(st, st', t)
    || Drained(st, st', t) || CloseFails(st, st', t) || CloseSucceeds(st, st', t) || Delete(st, st', t) || Clear(st, st', t)
  }

  ghost predicate Next(st: State, st': State) {
    exists t: ThreadId :: Call(st, st', t) || Proceed(st, st', t)
  }

  ghost predicate IsRun(run: seq<State>) {
    && run != [] && (exists p :: run[0] == State(None, 0, Some(p), 0, map[]))
    && forall i | 0 <= i < |run| - 1 :: Next(run[i], run[i + 1])
  }

  // ---- What every step keeps

  predicate HoldsMu(pc: Pc) {
    pc.Entering? || pc.Draining? || pc.Closing? || pc.Deleting? || pc.Clearing?
  }

  // Counted in the wait group.
  predicate Counted(pc: Pc) {
    pc.Entered? || pc.InCall? || pc.Leaving?
  }

  // In Close, with the wait group drained.
  predicate Alone(pc: Pc) {
    pc.Closing? || pc.Deleting? || pc.Clearing?
  }

  function CountedThreads(st: State): set<ThreadId> {
    set t | t in st.pcs && Counted(st.pcs[t])
  }

  ghost predicate ThreadInv(st: State, t: ThreadId) {
    var pc := PcOf(st, t);
    && (HoldsMu(pc) <==> st.mu == Some(t))
    && (Counted(pc) ==> st.c.Some? && st.deleted == 0)
    && (pc.InCall? ==> pc.argument == st.c)
    && (Alone(pc) ==> st.c.Some? && st.wg == 0 && st.deleted == if pc.Clearing? then 1 else 0)
    && (pc.Closing? || pc.Deleting? ==> pc.argument == st.c)
  }

  ghost predicate Inv(st: State) {
    && (forall t: ThreadId :: ThreadInv(st, t))
    && st.wg == |CountedThreads(st)|
    && (st.c.None? ==> st.deleted == 1)
    && (st.c.Some? && !(st.mu.Some? && PcOf(st, st.mu.value).Clearing?) ==> st.deleted == 0)
  }

  // The wait group counts: a step changes the set of counted threads by at most its own thread.
  lemma CountAfter(st: State, st': State, t: ThreadId)
    requires st'.pcs == st.pcs[t := PcOf(st', t)] && st.wg == |CountedThreads(st)|
    requires st'.wg == st.wg + (if Counted(PcOf(st', t)) then 1 else 0) - (if Counted(PcOf(st, t)) then 1 else 0)
    ensures st'.wg == |CountedThreads(st')|
  {
    var before, after := CountedThreads(st), CountedThreads(st');
    if Counted(PcOf(st', t)) {
      assert after == before + {t};
    } else {
      assert after == before - {t};
    }
  }

  lemma NobodyCounted(st: State, t: ThreadId)
    requires Inv(st) && st.wg == 0
    ensures !Counted(PcOf(st, t))
  {
    assert CountedThreads(st) == {};
    assert t in st.pcs && Counted(st.pcs[t]) ==> t in CountedThreads(st);
  }

  lemma StepKeepsInv(st: State, st': State, t: ThreadId)
    requires Inv(st) && (Call(st, st', t) || Proceed(st, st', t))
    ensures Inv(st')
  {
    assert ThreadInv(st, t);
    CountAfter(st, st', t);
    forall u: ThreadId
      ensures ThreadInv(st', u)
    {
      assert ThreadInv(st, u);
      if st.wg == 0 {
        NobodyCounted(st, u);
      }
    }
  }

  lemma {:induction false} RunsKeepInv(run: seq<State>, i: nat)
    requires IsRun(run) && i < |run|
    ensures Inv(run[i])
  {
    hide Inv, Call, Proceed;
    if i == 0 {
      StartInv(run[0]);
    } else {
      RunsKeepInv(run, i - 1);
      assert Next(run[i - 1], run[i]);
      var t: ThreadId :| Call(run[i - 1], run[i], t) || Proceed(run[i - 1], run[i], t);
      StepKeepsInv(run[i - 1], run[i], t);
    }
  }

  lemma StartInv(st: State)
    requires st.mu.None? && st.wg == 0 && st.c.Some? && st.deleted == 0 && st.pcs == map[]
    ensures Inv(st)
  {
    assert CountedThreads(st) == {};
  }

  // The C session is deleted at most once, and only when the session is closed for good.
  lemma DeletedAtMostOnce(run: seq<State>, i: nat)
    requires IsRun(run) && i < |run|
    ensures run[i].deleted <= 1 && (run[i].c.None? ==> run[i].deleted == 1)
  {
    RunsKeepInv(run, i);
    var st := run[i];
    if st.mu.Some? {
      assert ThreadInv(st, st.mu.value);
    }
  }

  // No call is made on a nil or deleted session, and none is in progress while it is being
  // closed or deleted.
  lemma CallsAreSafe(run: seq<State>, i: nat, t: ThreadId)
    requires IsRun(run) && i < |run| && PcOf(run[i], t).InCall?
    ensures PcOf(run[i], t).argument.Some? && run[i].deleted == 0
    ensures forall u: ThreadId :: !PcOf(run[i], u).Closing? && !PcOf(run[i], u).Deleting?
  {
    var st := run[i];
    RunsKeepInv(run, i);
    assert ThreadInv(st, t);
    forall u: ThreadId
      ensures !Alone(PcOf(st, u))
    {
      assert ThreadInv(st, u);
      if st.wg == 0 {
        NobodyCounted(st, t);
      }
    }
  }

  // TF_CloseSession and TF_DeleteSession get a session that has not been deleted.
  lemma ClosesAreSafe(run: seq<State>, i: nat, t: ThreadId)
    requires IsRun(run) && i < |run| && (PcOf(run[i], t).Closing? || PcOf(run[i], t).Deleting?)
    ensures PcOf(run[i], t).argument.Some? && run[i].deleted == 0
  {
    RunsKeepInv(run, i);
    assert ThreadInv(run[i], t);
  }

  // ---- What a call achieves

  // How thread t gets on in a step, of its own or of another thread.
  ghost predicate GetsOn(st: State, st': State, t: ThreadId) {
    var pc, pc' := PcOf(st, t), PcOf(st', t);
    pc' == pc ||
      match pc
      case Idle => pc' == WantsToRun || pc' == WantsToClose
      case WantsToRun => pc' == Entering
      case Entering => pc' == if st.c.None? then Idle else Entered
      case Entered => pc' == InCall(st.c)
      case InCall(_) => pc' == Leaving
      case Leaving => pc' == Idle
      case WantsToClose => pc' == Draining
      case Draining => pc' == if st.c.None? then Idle else Closing(st.c)
      case Closing(_) => (pc' == Idle && st'.c == st.c && st'.deleted == st.deleted) || pc' == Deleting(st.c)
      case Deleting(_) => pc' == Clearing && st'.deleted == st.deleted + 1
      case Clearing => pc' == Idle && st'.c.None?
  }

  lemma StepGetsOn(st: State, st': State, t: ThreadId)
    requires Next(st, st')
    ensures GetsOn(st, st', t)
    ensures st'.c == st.c || st'.c.None?
  {
    hide Call, Proceed, GetsOn;
    var u: ThreadId :| Call(st, st', u) || Proceed(st, st', u);
    OwnStep(st, st', u);
    if u != t {
      StandsStill(st, st', t);
    }
  }

  lemma StandsStill(st: State, st': State, t: ThreadId)
    requires PcOf(st', t) == PcOf(st, t)
    ensures GetsOn(st, st', t)
  {
  }

  lemma OwnStep(st: State, st': State, u: ThreadId)
    requires Call(st, st', u) || Proceed(st, st', u)
    ensures GetsOn(st, st', u) && (st'.c == st.c || st'.c.None?) && st'.pcs == st.pcs[u := PcOf(st', u)]
  {
  }

  lemma {:induction false} SameSession(run: seq<State>, i: nat)
    requires IsRun(run) && i < |run|
    ensures run[0].c.Some? && (run[i].c == run[0].c || run[i].c.None?)
  {
    if i > 0 {
      SameSession(run, i - 1);
      StepGetsOn(run[i - 1], run[i], 0);
    }
  }

  lemma {:induction false} StaysClosed(run: seq<State>, i: nat, j: nat)
    requires IsRun(run) && i <= j < |run| && run[i].c.None?
    ensures run[j].c.None?
  {
    if i < j {
      StaysClosed(run, i, j - 1);
      StepGetsOn(run[j - 1], run[j], 0);
    }
  }

  // Thread t begins a call at i and is still in it at m.
  ghost predicate InTheCall(run: seq<State>, i: nat, m: nat, t: ThreadId, start: Pc) {
    i <= m < |run| && PcOf(run[i], t) == start && forall k | i <= k <= m :: !PcOf(run[k], t).Idle?
  }

  // Somewhere from state i to state m the thread is at pc.
  ghost predicate Passes(run: seq<State>, i: nat, m: nat, t: ThreadId, pc: Pc)
    requires i <= m < |run|
  {
    PcOf(run[m], t) == pc || (i < m && Passes(run, i, m - 1, t, pc))
  }

  // How far a Run that began at i has come at m.
  ghost predicate RunHasCome(run: seq<State>, i: nat, m: nat, t: ThreadId)
    requires i <= m < |run|
  {
    && (run[i].c.None? ==> !Passes(run, i, m, t, InCall(run[0].c)))
    && match PcOf(run[m], t)
       case WantsToRun => true
       case Entering => true
       case Entered => run[i].c.Some?
       case InCall(argument) => argument == run[0].c && run[i].c.Some?
       case Leaving => Passes(run, i, m, t, InCall(run[0].c)) && run[i].c.Some?
       case _ => false
  }

  lemma RunGetsOn(run: seq<State>, i: nat, m: nat, t: ThreadId)
    requires i <= m < |run| - 1 && RunHasCome(run, i, m, t)
    requires GetsOn(run[m], run[m + 1], t) && !PcOf(run[m + 1], t).Idle?
    requires (run[i].c.None? ==> run[m].c.None?) && (run[m].c == run[0].c || PcOf(run[m], t) != Entered)
    ensures RunHasCome(run, i, m + 1, t)
  {
  }

  lemma {:induction false} RunsSoFar(run: seq<State>, i: nat, m: nat, t: ThreadId)
    requires IsRun(run) && InTheCall(run, i, m, t, WantsToRun)
    ensures RunHasCome(run, i, m, t)
  {
    hide RunHasCome, GetsOn, Next, Inv;
    if i < m {
      RunsSoFar(run, i, m - 1, t);
      StepGetsOn(run[m - 1], run[m], t);
      EnteredSession(run, m - 1, t);
      if run[i].c.None? {
        StaysClosed(run, i, m - 1);
      }
      RunGetsOn(run, i, m - 1, t);
    } else {
      RunBegins(run, i, t);
    }
  }

  lemma RunBegins(run: seq<State>, i: nat, t: ThreadId)
    requires i < |run| && PcOf(run[i], t) == WantsToRun
    ensures RunHasCome(run, i, i, t)
  {
  }

  lemma EnteredSession(run: seq<State>, m: nat, t: ThreadId)
    requires IsRun(run) && m < |run|
    ensures PcOf(run[m], t).Entered? ==> run[m].c == run[0].c
  {
    RunsKeepInv(run, m);
    assert ThreadInv(run[m], t);
    SameSession(run, m);
  }

  // Run on an open session makes its C call on the session as it was created; it does without
  // only if the session has been closed by the time it returns. On a closed session no call is
  // made.
  lemma RunMakesItsCall(run: seq<State>, i: nat, j: nat, t: ThreadId)
    requires IsRun(run) && j < |run| - 1 && InTheCall(run, i, j, t, WantsToRun) && PcOf(run[j + 1], t).Idle?
    ensures Passes(run, i, j, t, InCall(run[0].c)) || run[j + 1].c.None?
    ensures run[i].c.None? ==> !Passes(run, i, j, t, InCall(run[0].c))
  {
    RunsSoFar(run, i, j, t);
    StepGetsOn(run[j], run[j + 1], t);
    if run[j].c.None? {
      StaysClosed(run, j, j + 1);
    }
  }

  lemma ClosesItsSession(run: seq<State>, m: nat, t: ThreadId)
    requires IsRun(run) && m < |run|
    ensures PcOf(run[m], t).Closing? || PcOf(run[m], t).Deleting? ==> PcOf(run[m], t).argument == run[0].c
    ensures PcOf(run[m], t).Clearing? ==> run[m].deleted == 1
  {
    RunsKeepInv(run, m);
    assert ThreadInv(run[m], t);
    SameSession(run, m);
  }

  // How far a Close that began at i has come at m.
  ghost predicate CloseHasCome(run: seq<State>, i: nat, m: nat, t: ThreadId)
    requires i <= m < |run|
  {
    && (Passes(run, i, m, t, Deleting(run[0].c)) ==> Passes(run, i, m, t, Closing(run[0].c)))
    && match PcOf(run[m], t)
       case WantsToClose => !Passes(run, i, m, t, Closing(run[0].c))
       case Draining => !Passes(run, i, m, t, Closing(run[0].c))
       case Closing(argument) => argument == run[0].c && !Passes(run, i, m, t, Deleting(run[0].c))
       case Deleting(argument) => argument == run[0].c
       case Clearing => Passes(run, i, m, t, Deleting(run[0].c)) && run[m].deleted == 1
       case _ => false
  }

  lemma CloseGetsOn(run: seq<State>, i: nat, m: nat, t: ThreadId)
    requires i <= m < |run| - 1 && CloseHasCome(run, i, m, t)
    requires GetsOn(run[m], run[m + 1], t) && !PcOf(run[m + 1], t).Idle?
    requires PcOf(run[m + 1], t).Closing? || PcOf(run[m + 1], t).Deleting? ==> PcOf(run[m + 1], t).argument == run[0].c
    requires PcOf(run[m + 1], t).Clearing? ==> run[m + 1].deleted == 1
    ensures CloseHasCome(run, i, m + 1, t)
  {
  }

  lemma {:induction false} ClosesSoFar(run: seq<State>, i: nat, m: nat, t: ThreadId)
    requires IsRun(run) && InTheCall(run, i, m, t, WantsToClose)
    ensures CloseHasCome(run, i, m, t)
  {
    hide CloseHasCome, GetsOn, Next;
    if i < m {
      ClosesSoFar(run, i, m - 1, t);
      StepGetsOn(run[m - 1], run[m], t);
      ClosesItsSession(run, m, t);
      CloseGetsOn(run, i, m - 1, t);
    } else {
      CloseBegins(run, i, t);
    }
  }

  lemma CloseBegins(run: seq<State>, i: nat, t: ThreadId)
    requires i < |run| && PcOf(run[i], t) == WantsToClose
    ensures CloseHasCome(run, i, i, t)
  {
  }

  // Close on an open session calls TF_CloseSession. If that succeeds the session is deleted, and
  // closed for good when Close returns; if it fails the session stays open.
  lemma CloseCloses(run: seq<State>, i: nat, j: nat, t: ThreadId)
    requires IsRun(run) && j < |run| - 1 && InTheCall(run, i, j, t, WantsToClose) && PcOf(run[j + 1], t).Idle?
    ensures Passes(run, i, j, t, Deleting(run[0].c)) ==> run[j + 1].c.None? && run[j + 1].deleted == 1
    ensures !Passes(run, i, j, t, Closing(run[0].c)) ==> run[j + 1].c.None?
    ensures Passes(run, i, j, t, Closing(run[0].c)) && !Passes(run, i, j, t, Deleting(run[0].c)) ==>
              run[j + 1].c == run[0].c && run[j + 1].deleted == 0
  {
    hide Next, CloseHasCome;
    ClosesSoFar(run, i, j, t);
    StepGetsOn(run[j], run[j + 1], t);
    SameSession(run, j);
    DeletedWithSession(run, j, t);
    DeletedWithSession(run, j + 1, t);
    if run[j].c.None? {
      StaysClosed(run, j, j + 1);
    }
    CloseEnds(run, i, j, t);
  }

  // In terms of what TF_CloseSession returned.
  lemma CloseReturns(run: seq<State>, i: nat, k: nat, j: nat, t: ThreadId)
    requires IsRun(run) && j < |run| - 1 && InTheCall(run, i, j, t, WantsToClose) && PcOf(run[j + 1], t).Idle?
    requires i <= k <= j && PcOf(run[k], t).Closing?
    ensures CloseSucceeds(run[k], run[k + 1], t) ==> run[j + 1].c.None? && run[j + 1].deleted == 1
    ensures CloseFails(run[k], run[k + 1], t) ==> j == k && run[j + 1].c == run[0].c && run[j + 1].deleted == 0
  {
    hide Next, IsRun, CloseHasCome, Passes;
    CloseCloses(run, i, j, t);
    ClosesItsSession(run, k, t);
    PassesLater(run, i, k, j, t, Closing(run[0].c));
    ClosesSoFar(run, i, j, t);
    CloseEnds(run, i, j, t);
    if CloseSucceeds(run[k], run[k + 1], t) {
      ClosesItsSession(run, k + 1, t);
      PassesLater(run, i, k + 1, j, t, Deleting(run[0].c));
    } else if CloseFails(run[k], run[k + 1], t) {
      assert PcOf(run[k + 1], t).Idle?;
    }
  }

  lemma {:induction false} PassesLater(run: seq<State>, i: nat, k: nat, m: nat, t: ThreadId, pc: Pc)
    requires i <= k <= m < |run| && PcOf(run[k], t) == pc
    ensures Passes(run, i, m, t, pc)
  {
    if k < m {
      PassesLater(run, i, k, m - 1, t, pc);
    }
  }

  lemma CloseEnds(run: seq<State>, i: nat, j: nat, t: ThreadId)
    requires i <= j < |run| && CloseHasCome(run, i, j, t)
    ensures PcOf(run[j], t).Draining? ==>
              !Passes(run, i, j, t, Closing(run[0].c)) && !Passes(run, i, j, t, Deleting(run[0].c))
    ensures PcOf(run[j], t).Closing? ==>
              Passes(run, i, j, t, Closing(run[0].c)) && !Passes(run, i, j, t, Deleting(run[0].c))
    ensures PcOf(run[j], t).Clearing? ==>
              Passes(run, i, j, t, Closing(run[0].c)) && Passes(run, i, j, t, Deleting(run[0].c))
    ensures var pc := PcOf(run[j], t); pc.WantsToClose? || pc.Draining? || pc.Closing? || pc.Deleting? || pc.Clearing?
  {
  }

  lemma DeletedWithSession(run: seq<State>, m: nat, t: ThreadId)
    requires IsRun(run) && m < |run|
    ensures run[m].c.None? ==> run[m].deleted == 1
    ensures PcOf(run[m], t).Closing? ==> run[m].c.Some? && run[m].deleted == 0
  {
    RunsKeepInv(run, m);
    assert ThreadInv(run[m], t);
  }

  // ---- Progress

  ghost predicate CanMove(st: State, t: ThreadId) {
    exists st' :: Proceed(st, st', t)
  }

  // Close waits for calls, and calls wait for nothing once they are counted.
  lemma NeverDeadlocked(run: seq<State>, i: nat, t: ThreadId)
    requires IsRun(run) && i < |run| && !PcOf(run[i], t).Idle?
    ensures exists u: ThreadId :: CanMove(run[i], u)
  {
    var st := run[i];
    RunsKeepInv(run, i);
    var u := if st.mu.Some? then st.mu.value else t;
    assert ThreadInv(st, u);
    if PcOf(st, u).Draining? && st.wg != 0 {
      var v: ThreadId :| v in CountedThreads(st);
      UnhinderedMoves(st, v);
    } else {
      UnhinderedMoves(st, u);
    }
  }

  lemma UnhinderedMoves(st: State, u: ThreadId)
    requires !PcOf(st, u).Idle? && (PcOf(st, u).Draining? ==> st.wg == 0)
    requires PcOf(st, u).WantsToRun? || PcOf(st, u).WantsToClose? ==> st.mu.None?
    ensures CanMove(st, u)
  {
    match PcOf(st, u)
    case WantsToRun => assert Proceed(st, Goto(st.(mu := Some(u)), u, Entering), u);
    case WantsToClose => assert Proceed(st, Goto(st.(mu := Some(u)), u, Draining), u);
    case Entering =>
      var st' := if st.c.None? then Goto(st.(mu := None), u, Idle) else Goto(st.(mu := None, wg := st.wg + 1), u, Entered);
      assert Proceed(st, st', u);
    case Entered => assert Proceed(st, Goto(st, u, InCall(st.c)), u);
    case InCall(_) => assert Proceed(st, Goto(st, u, Leaving), u);
    case Leaving => assert Proceed(st, Goto(st.(wg := st.wg - 1), u, Idle), u);
    case Draining =>
      var st' := if st.c.None? then Goto(st.(mu := None), u, Idle) else Goto(st, u, Closing(st.c));
      assert Proceed(st, st', u);
    case Closing(_) => assert Proceed(st, Goto(st.(mu := None), u, Idle), u);
    case Deleting(_) => assert Proceed(st, Goto(st.(deleted := st.deleted + 1), u, Clearing), u);
    case Clearing => assert Proceed(st, Goto(st.(c := None, mu := None), u, Idle), u);
  }
}
