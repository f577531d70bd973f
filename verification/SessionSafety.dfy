/**
  What holds in every run of the graph/session protocol, whatever the interleaving: no
  change to a node goes unnoticed, every node is sent to a session exactly once, the graph
  is freed exactly once and never used afterwards, and threads never deadlock.
 */
module SessionSafety {
  import opened Options
  import opened SessionProtocol
  import opened SessionInvariants
  import opened SessionControl
  import opened SessionContents
  import opened SessionWarnings

  lemma InitInv(st: State)
    requires Init(st)
    ensures Inv(st) && Justified(st)
  {
    assert forall t: ThreadId :: PcOf(st, t).Idle?;
  }

  lemma BeginKeepsInv(st: State, st': State, t: ThreadId, call: Call)
    requires Inv(st) && Justified(st) && Begin(st, st', t, call)
    ensures Inv(st') && Justified(st') && Effect(st, st', t)
  {
    hide Begin, Justified, Inv, Effect, Bystander;
    LocatedNow(st, t);
    EffectOfBegin(st, st', t, call);
    BeginningIsBystander(st, st', t, call);
    BystanderAfter(st, st', t);
  }

  lemma ProceedKeepsInv(st: State, st': State, t: ThreadId)
    requires Inv(st) && Justified(st) && Proceed(st, st', t)
    ensures Inv(st') && Justified(st') && Effect(st, st', t)
  {
    hide Justified, LocksHeld, Known, KnownPc, Lifetime, Data, Warned, Effect, Bystander, Calm, InControl;
    hide Enter, Register, FailLoad, FinishLoad, AddNodes, KeepNodes, RemoveNodes, GiveUp, Change, LockNext, Check;
    hide EndRecording, LockForExtend, SkipExtend, Snapshot, FailExtend, FinishExtend, RequestDelete, Unregister;
    hide FreeGraph, FreeSession;
    LocatedNow(st, t);
    if Enter(st, st', t) || LeavesAsIs(st, st', t) {
      EffectOfEnter(st, st', t); MovingIsBystander(st, st', t);
    } else if s :| LockNext(st, st', t, s) || LockForExtend(st, st', t, s) {
      EffectOfLocking(st, st', t, s); LockingIsBystander(st, st', t, s);
    } else if FailExtend(st, st', t) {
      EffectOfSending(st, st', t); FailingIsBystander(st, st', t);
    } else if RemoveNodes(st, st', t) {
      EffectOfBuilding(st, st', t, []); BuildingIsBystander(st, st', t, []);
    } else if batch :| AddNodes(st, st', t, batch) {
      EffectOfBuilding(st, st', t, batch); BuildingIsBystander(st, st', t, batch);
    } else if s :| Register(st, st', t, s) {
      EffectOfCreating(st, st', t, s, []); CreatingIsBystander(st, st', t, s, []);
    } else if s, batch :| FailLoad(st, st', t, s, batch) {
      EffectOfCreating(st, st', t, s, batch); CreatingIsBystander(st, st', t, s, batch);
    } else if RequestDelete(st, st', t) {
      EffectOfRequestDelete(st, st', t); DeletingIsBystander(st, st', t, 0);
    } else if s :| Unregister(st, st', t, s) {
      EffectOfUnregister(st, st', t, s); DeletingIsBystander(st, st', t, s);
    } else if FreeGraph(st, st', t) || FreeSession(st, st', t) {
      EffectOfFreeing(st, st', t); FreeingIsBystander(st, st', t);
    } else if s, batch :| FinishLoad(st, st', t, s, batch) {
      EffectOfFinishLoad(st, st', t, s, batch); ContentsFinishLoad(st, st', t, s, batch);
      LoadingIsCalm(st, st', t, s, batch); JustifiedCalm(st, st');
    } else if s :| SkipExtend(st, st', t, s) {
      EffectOfSkipExtend(st, st', t, s); ContentsSkipExtend(st, st', t, s);
      CollectingIsCalm(st, st', t, s); JustifiedCalm(st, st');
    } else if s :| Snapshot(st, st', t, s) {
      EffectOfSnapshot(st, st', t, s); ContentsSnapshot(st, st', t, s);
      CollectingIsCalm(st, st', t, s); JustifiedCalm(st, st');
    } else if id :| Change(st, st', t, id) {
      EffectOfChange(st, st', t, id); ContentsChange(st, st', t, id); JustifiedChange(st, st', t, id);
    } else if Check(st, st', t) {
      EffectOfCheck(st, st', t); ContentsCheck(st, st', t); JustifiedCheck(st, st', t);
    } else {
      EffectOfSending(st, st', t); ContentsFinishExtend(st, st', t); JustifiedFinishExtend(st, st', t);
    }
    ControlAfter(st, st', t);
    if Bystander(st, st', t) {
      BystanderAfter(st, st', t);
    }
  }

  // The invariant holds throughout every run.
  lemma {:induction false} RunsKeepInv(run: seq<State>, i: nat)
    requires IsRun(run) && i < |run|
    ensures Inv(run[i]) && Justified(run[i])
  {
    hide Inv, Justified, Proceed, Begin;
    if i == 0 {
      InitInv(run[0]);
    } else {
      RunsKeepInv(run, i - 1);
      assert Next(run[i - 1], run[i]);
      var t: ThreadId :| Step(run[i - 1], run[i], t);
      if Proceed(run[i - 1], run[i], t) {
        ProceedKeepsInv(run[i - 1], run[i], t);
      } else {
        var call :| Begin(run[i - 1], run[i], t, call);
        BeginKeepsInv(run[i - 1], run[i], t, call);
      }
    }
  }

  // Warnings are exact. No mutation is missed: whenever the graph mutex is free, a session
  // with a copy of a node that is older than a recorded change made since its warning was last
  // logged has a warning, even if the change raced with an Extend after the Extend had let go
  // of the graph. And no warning is raised for anything else, at any time.
  lemma WarningsAreExact(run: seq<State>, i: nat, s: SessionId)
    requires IsRun(run) && i < |run| && s in run[i].sessions && s in run[i].warnings
    ensures run[i].warnings[s] ==> exists id :: Outdated(run[i], s, id)
    ensures run[i].graphOwner.None? && (exists id :: Outdated(run[i], s, id)) ==> run[i].warnings[s]
  {
    hide Outdated;
    RunsKeepInv(run, i);
    assert Noticed(run[i], s) && IsJustified(run[i], s);
  }

  // The session is sent the live op nodes between its old and its new counter.
  ghost predicate Advances(st: State, st': State, s: SessionId)
    requires s in st.sessions && s in st'.sessions
  {
    var session, session' := st.sessions[s], st'.sessions[s];
    && session.lastNumGraphNodes <= session'.lastNumGraphNodes
    && session'.sent == session.sent + LiveOps(st.slots, session.lastNumGraphNodes, session'.lastNumGraphNodes)
  }

  ghost predicate DeliversNothing(st: State, st': State, s: SessionId)
    requires s in st.sessions && s in st'.sessions
  {
    var session, session' := st.sessions[s], st'.sessions[s];
    && session'.lastNumGraphNodes == session.lastNumGraphNodes
    && session'.sent == session.sent && session'.copies == session.copies
  }

  lemma LoggingDeliversNothing(st: State, st': State, t: ThreadId, s': SessionId, s: SessionId)
    requires SkipExtend(st, st', t, s') || Snapshot(st, st', t, s')
    requires s in st.sessions && s in st'.sessions
    ensures DeliversNothing(st, st', s)
  {
    hide LiveOps, Versions;
  }

  lemma CollectingDeliversNothing(st: State, st': State, t: ThreadId, s: SessionId)
    requires Collects(st, st', t)
    requires s in st.sessions && s in st'.sessions
    ensures DeliversNothing(st, st', s)
  {
    hide SkipExtend, Snapshot;
    if s' :| SkipExtend(st, st', t, s') || Snapshot(st, st', t, s') {
      LoggingDeliversNothing(st, st', t, s', s);
    }
  }

  lemma MutatingDeliversNothing(st: State, st': State, t: ThreadId, s: SessionId)
    requires Mutates(st, st', t)
    requires s in st.sessions && s in st'.sessions
    ensures DeliversNothing(st, st', s)
  {
    hide LiveOps;
  }

  lemma BuildingDeliversNothing(st: State, st': State, t: ThreadId, s: SessionId)
    requires Enter(st, st', t) || Builds(st, st', t)
    requires s in st.sessions && s in st'.sessions
    ensures DeliversNothing(st, st', s)
  {
    hide LiveOps, Version;
  }

  lemma CreatingDeliversNothing(st: State, st': State, t: ThreadId, s: SessionId)
    requires KnownPc(st, t) && Creates(st, st', t)
    requires s in st.sessions && s in st'.sessions && !st.sessions[s].stage.Creating?
    ensures DeliversNothing(st, st', s)
  {
    hide LiveOps, Versions;
  }

  lemma DeletingDeliversNothing(st: State, st': State, t: ThreadId, s: SessionId)
    requires Deletes(st, st', t) && s in st.sessions && s in st'.sessions
    ensures DeliversNothing(st, st', s)
  {
    hide LiveOps, Version;
  }

  // The counter of a session advances, and copies are delivered, only when an Extend of that
  // session succeeds.
  lemma OnlySuccessAdvances(st: State, st': State, t: ThreadId, s: SessionId)
    requires Inv(st) && Proceed(st, st', t) && s in st.sessions && s in st'.sessions && !st.sessions[s].stage.Creating?
    ensures DeliversNothing(st, st', s) || (FinishExtend(st, st', t) && PcOf(st, t).s == s && Advances(st, st', s))
  {
    hide LiveOps, Version, Sent, Noticed, FreshPc, Lifetime, Enter, Builds, Creates, Mutates, Collects, Deletes;
    assert KnownPc(st, t) && SendingPc(st, t);
    if Creates(st, st', t) {
      CreatingDeliversNothing(st, st', t, s);
    } else if Deletes(st, st', t) {
      DeletingDeliversNothing(st, st', t, s);
    } else if Collects(st, st', t) {
      CollectingDeliversNothing(st, st', t, s);
    } else if Mutates(st, st', t) {
      MutatingDeliversNothing(st, st', t, s);
    } else if !FinishExtend(st, st', t) {
      BuildingDeliversNothing(st, st', t, s);
    }
  }

  // Exactly-once extension: what a session has been sent is every live op node below its
  // counter, each once and in increasing order, and nothing else.
  lemma SentExactlyOnce(run: seq<State>, i: nat, s: SessionId)
    requires IsRun(run) && i < |run| && s in run[i].sessions
    ensures var session := run[i].sessions[s];
            && (forall id: NodeId :: id in session.sent <==> id < session.lastNumGraphNodes && IsLiveOp(run[i].slots, id))
            && (forall j, k | 0 <= j < k < |session.sent| :: session.sent[j] < session.sent[k])
            && (forall id: NodeId :: id in session.copies <==> id in session.sent)
            && session.lastNumGraphNodes <= |run[i].slots|
  {
    RunsKeepInv(run, i);
    assert Sent(run[i], s);
    LiveOpsExact(run[i].slots, 0, run[i].sessions[s].lastNumGraphNodes);
  }

  // No use after free: once some thread has decided to delete the graph, no thread is in a
  // call that still touches the graph, waiting for its mutex included.
  predicate UsesGraph(pc: Pc) {
    pc.Waiting? || HoldsGraph(pc)
  }

  lemma NoUseAfterFree(run: seq<State>, i: nat, t: ThreadId)
    requires IsRun(run) && i < |run| && UsesGraph(PcOf(run[i], t))
    ensures run[i].freed == 0 && forall u: ThreadId :: !PcOf(run[i], u).Freeing?
  {
    var st := run[i];
    RunsKeepInv(run, i);
    assert KnownPc(st, t) && EndPc(st, t);
    assert st.freer.None?;
    forall u: ThreadId
      ensures !PcOf(st, u).Freeing?
    {
      assert EndPc(st, u);
    }
  }

  // Graph lifetime: the graph is deleted at most once; a delete is done or under way, by
  // exactly one thread, exactly when it has been requested and no session is left.
  lemma FreedExactlyOnce(run: seq<State>, i: nat)
    requires IsRun(run) && i < |run|
    ensures run[i].freed <= 1
    ensures run[i].deleteRequested && run[i].warnings == map[] <==>
            run[i].freed == 1 || exists t: ThreadId :: PcOf(run[i], t).Freeing?
    ensures forall t: ThreadId, u: ThreadId | PcOf(run[i], t).Freeing? && PcOf(run[i], u).Freeing? :: t == u
    ensures run[i].freed == 1 ==> forall t: ThreadId :: !PcOf(run[i], t).Freeing?
  {
    var st := run[i];
    RunsKeepInv(run, i);
    forall t: ThreadId | PcOf(st, t).Freeing?
      ensures st.freer == Some(t) && st.freed == 0
    {
      assert EndPc(st, t);
    }
  }

  // ---- Deadlock freedom

  ghost predicate CanMove(st: State, t: ThreadId) {
    exists st' :: Proceed(st, st', t)
  }

  // Whoever holds a session mutex without the graph mutex is sending, and can end.
  lemma SenderMoves(st: State, u: ThreadId)
    requires PcOf(st, u).Sending?
    ensures CanMove(st, u)
  {
    var st' := Goto(st.(sessionOwners := st.sessionOwners - {PcOf(st, u).s}), u, Idle);
    assert FailExtend(st, st', u);
    assert Proceed(st, st', u);
  }

  lemma MutexWaiterMoves(st: State, t: ThreadId, s: SessionId)
    requires LocksHeld(st) && HoldsGraph(PcOf(st, t)) && HeldSession(PcOf(st, t)).None?
    requires PcOf(st, t) == Inside(Extend(s)) || (PcOf(st, t).Recording? && s in PcOf(st, t).todo)
    ensures s in st.sessionOwners ==> PcOf(st, st.sessionOwners[s]).Sending? && CanMove(st, st.sessionOwners[s])
    ensures s !in st.sessionOwners ==> CanMove(st, t)
    ensures exists u: ThreadId :: CanMove(st, u)
  {
    if s in st.sessionOwners {
      var u := st.sessionOwners[s];
      assert HeldSession(PcOf(st, u)) == Some(s);
      SenderMoves(st, u);
    } else if PcOf(st, t).Inside? {
      var st' := Goto(st.(sessionOwners := st.sessionOwners[s := t]), t, Extending(s));
      assert LockForExtend(st, st', t, s);
      assert Proceed(st, st', t) && CanMove(st, t);
    } else {
      var st' := Goto(st.(sessionOwners := st.sessionOwners[s := t]), t, Checking(PcOf(st, t).id, PcOf(st, t).todo, s));
      assert LockNext(st, st', t, s);
      assert Proceed(st, st', t) && CanMove(st, t);
    }
  }

  // Inside a call, only Extend waits for a second mutex.
  lemma InsiderMoves(st: State, t: ThreadId)
    requires PcOf(st, t).Inside? && KnownPc(st, t) && !PcOf(st, t).call.Extend?
    ensures CanMove(st, t)
  {
    match PcOf(st, t).call
    case New(s) =>
      var st' := Leave(st.(warnings := st.warnings[s := false],
                           sessions := st.sessions[s := st.sessions[s].(stage := Open)]), t, Idle);
      assert Register(st, st', t, s);
      assert Proceed(st, st', t);
    case Load(s) =>
      var st' := Leave(st.(slots := st.slots + NewSlots([]), sessions := st.sessions - {s}), t, Idle);
      assert FailLoad(st, st', t, s, []);
      assert Proceed(st, st', t);
    case Add =>
      assert GiveUp(st, Leave(st, t, Idle), t);
      assert Proceed(st, Leave(st, t, Idle), t);
    case Mutate(id) =>
      assert GiveUp(st, Leave(st, t, Idle), t);
      assert Proceed(st, Leave(st, t, Idle), t);
    case DeleteGraph =>
      var del := st.warnings == map[];
      var st' := Leave(st.(deleteRequested := true, freer := if del then Some(t) else st.freer),
                       t, if del then Freeing(Idle) else Idle);
      assert RequestDelete(st, st', t);
      assert Proceed(st, st', t);
    case DeleteSession(s) =>
      var rest := st.warnings - {s};
      var del := st.deleteRequested && rest == map[];
      var st' := Leave(st.(warnings := rest, sessions := st.sessions[s := st.sessions[s].(stage := Closed(t))],
                           freer := if del then Some(t) else st.freer),
                       t, if del then Freeing(Ending(s)) else Ending(s));
      assert Unregister(st, st', t, s);
      assert Proceed(st, st', t);
  }

  // The holder of the graph mutex moves, or the thread whose session mutex it waits for does.
  lemma HolderMoves(st: State, t: ThreadId)
    requires Inv(st) && st.graphOwner == Some(t)
    ensures exists u: ThreadId :: CanMove(st, u)
  {
    hide CanMove;
    var pc := PcOf(st, t);
    assert HoldsGraph(pc) && KnownPc(st, t);
    if pc.Inside? && pc.call.Extend? {
      MutexWaiterMoves(st, t, pc.call.s);
    } else if pc.Inside? {
      InsiderMoves(st, t);
    } else if pc.Recording? && pc.todo != {} {
      var s :| s in pc.todo;
      MutexWaiterMoves(st, t, s);
    } else {
      UnhinderedMoves(st, t);
    }
  }

  lemma UnhinderedMoves(st: State, t: ThreadId)
    requires KnownPc(st, t) && Known(st)
    requires var pc := PcOf(st, t);
             || pc.Tentative? || (pc.Recording? && pc.todo == {}) || pc.Checking? || pc.Extending?
             || pc.Freeing? || pc.Ending? || (pc.Waiting? && st.graphOwner.None?)
    ensures CanMove(st, t)
  {
    hide Register, FailLoad, FinishLoad, AddNodes, RemoveNodes, Change, LockNext, LockForExtend, Snapshot, FailExtend;
    hide FinishExtend, RequestDelete, Unregister;
    match PcOf(st, t)
    case Waiting(call) =>
      var st' := Goto(st.(graphOwner := Some(t)), t, Inside(call));
      assert Enter(st, st', t);
      assert Proceed(st, st', t);
    case Tentative(_) =>
      assert KeepNodes(st, Leave(st, t, Idle), t);
      assert Proceed(st, Leave(st, t, Idle), t);
    case Recording(_, _) =>
      assert EndRecording(st, Leave(st, t, Idle), t);
      assert Proceed(st, Leave(st, t, Idle), t);
    case Checking(id, todo, s) =>
      var warned := if st.sessions[s].lastNumGraphNodes > id then st.(warnings := st.warnings[s := true]) else st;
      var st' := Goto(warned.(sessionOwners := st.sessionOwners - {s}), t, Recording(id, todo - {s}));
      assert Check(st, st', t);
      assert Proceed(st, st', t);
    case Extending(s) =>
      var st' := Leave(st.(warnings := st.warnings[s := false], sessions := st.sessions[s := Logged(st, s)],
                           sessionOwners := st.sessionOwners - {s}), t, Idle);
      assert SkipExtend(st, st', t, s);
      assert Proceed(st, st', t);
    case Freeing(after) =>
      var st' := Goto(st.(freed := st.freed + 1), t, after);
      assert FreeGraph(st, st', t);
      assert Proceed(st, st', t);
    case Ending(s) =>
      var st' := Goto(st.(sessions := st.sessions - {s}), t, Idle);
      assert FreeSession(st, st', t);
      assert Proceed(st, st', t);
  }

  // Deadlock freedom: while any call is running, some running call can take its next step.
  lemma NeverDeadlocked(run: seq<State>, i: nat, t: ThreadId)
    requires IsRun(run) && i < |run| && !PcOf(run[i], t).Idle?
    ensures exists u: ThreadId :: CanMove(run[i], u)
  {
    hide CanMove, IsRun, LiveOps;
    var st := run[i];
    RunsKeepInv(run, i);
    if st.graphOwner.Some? {
      HolderMoves(st, st.graphOwner.value);
    } else if PcOf(st, t).Sending? {
      SenderMoves(st, t);
    } else {
      assert KnownPc(st, t) && !HoldsGraph(PcOf(st, t));
      UnhinderedMoves(st, t);
    }
  }
}
