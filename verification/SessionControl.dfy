/**
  Mutexes, sessions and the end of the graph: what a step may do to them, and that every
  step keeps to it.
 */
module SessionControl {
  import opened Options
  import opened SessionProtocol
  import opened SessionInvariants

  // ---- Mutexes

  // What a step of thread t may do to the owner fields.
  ghost predicate LockEffect(st: State, st': State, t: ThreadId) {
    var pc, pc' := PcOf(st, t), PcOf(st', t);
    && st'.pcs == st.pcs[t := pc']
    && (HoldsGraph(pc') && !HoldsGraph(pc) ==> st.graphOwner.None?)
    && st'.graphOwner == (if HoldsGraph(pc') then Some(t) else if HoldsGraph(pc) then None else st.graphOwner)
    && match (HeldSession(pc), HeldSession(pc'))
       case (None, None) => st'.sessionOwners == st.sessionOwners
       case (None, Some(s)) => s !in st.sessionOwners && st'.sessionOwners == st.sessionOwners[s := t]
       case (Some(s), None) => st'.sessionOwners == st.sessionOwners - {s}
       case (Some(s), Some(s')) => s == s' && st'.sessionOwners == st.sessionOwners
  }

  lemma GraphLockAfter(st: State, st': State, t: ThreadId, u: ThreadId)
    requires LocksHeld(st) && LockEffect(st, st', t)
    ensures HoldsGraph(PcOf(st', u)) <==> st'.graphOwner == Some(u)
  {
    hide HoldsGraph, HeldSession;
    assert HoldsGraph(PcOf(st, u)) <==> st.graphOwner == Some(u);
    assert HoldsGraph(PcOf(st, t)) <==> st.graphOwner == Some(t);
  }

  lemma SessionLockAfter(st: State, st': State, t: ThreadId, u: ThreadId, s: SessionId)
    requires LocksHeld(st) && LockEffect(st, st', t)
    ensures HeldSession(PcOf(st', u)) == Some(s) <==> s in st'.sessionOwners && st'.sessionOwners[s] == u
  {
    hide HoldsGraph, HeldSession;
    assert HeldSession(PcOf(st, u)) == Some(s) <==> s in st.sessionOwners && st.sessionOwners[s] == u;
    assert HeldSession(PcOf(st, t)) == Some(s) <==> s in st.sessionOwners && st.sessionOwners[s] == t;
  }

  lemma LocksAfter(st: State, st': State, t: ThreadId)
    requires LocksHeld(st) && LockEffect(st, st', t)
    ensures LocksHeld(st')
  {
    hide HoldsGraph, HeldSession, LockEffect;
    forall u: ThreadId
      ensures HoldsGraph(PcOf(st', u)) <==> st'.graphOwner == Some(u)
    {
      GraphLockAfter(st, st', t, u);
    }
    forall u: ThreadId, s
      ensures HeldSession(PcOf(st', u)) == Some(s) <==> s in st'.sessionOwners && st'.sessionOwners[s] == u
    {
      SessionLockAfter(st, st', t, u, s);
    }
  }

  // ---- Sessions and the end of the graph

  // A session is moved on by the thread that creates or closes it, and closed once no thread
  // extends it.
  ghost predicate StageEffect(st: State, st': State, t: ThreadId, s: SessionId)
    requires s in st.sessions
  {
    var stage := st.sessions[s].stage;
    InStage(st', s, stage) || if stage.Open? then forall u: ThreadId :: !Extends(PcOf(st, u), s) else stage.thread == t
  }

  ghost predicate EndEffect(st: State, st': State, t: ThreadId) {
    && (st'.closedBy == st.closedBy || (st.closedBy.None? && forall u: ThreadId :: !TakesGraph(PcOf(st, u))))
    && (st'.deleteRequested == st.deleteRequested || st.closedBy == Some(t))
    && ((st'.freer == st.freer && st'.freed == st.freed) || st.freer.None? || st.freer == Some(t))
  }

  // What a step of thread t may do to sessions and to the end of the graph.
  ghost predicate StageAndEndEffect(st: State, st': State, t: ThreadId) {
    && (forall s | s in st.sessions :: StageEffect(st, st', t, s))
    && (st'.warnings.Keys == st.warnings.Keys || HoldsGraph(PcOf(st, t)))
    && EndEffect(st, st', t)
    && InControl(st', t)
  }

  // What a thread relies on when it takes a step.
  ghost predicate InControl(st: State, t: ThreadId) {
    && Registered(st) && FreedWhenDue(st) && KnownPc(st, t) && EndPc(st, t)
    && (HoldsGraph(PcOf(st, t)) ==> st.graphOwner == Some(t))
  }

  lemma InControlNow(st: State, t: ThreadId)
    requires LocksHeld(st) && Known(st) && Lifetime(st)
    ensures InControl(st, t)
  {
    assert HoldsGraph(PcOf(st, t)) <==> st.graphOwner == Some(t);
  }

  ghost predicate Effect(st: State, st': State, t: ThreadId) {
    LockEffect(st, st', t) && StageAndEndEffect(st, st', t)
  }

  lemma OthersKnown(st: State, st': State, t: ThreadId, u: ThreadId)
    requires LocksHeld(st) && Effect(st, st', t) && KnownPc(st, u) && u != t
    ensures KnownPc(st', u)
  {
    hide EndEffect, EndPc, Registered, FreedWhenDue;
  }

  lemma OthersEnd(st: State, st': State, t: ThreadId, u: ThreadId)
    requires LockEffect(st, st', t) && EndEffect(st, st', t) && EndPc(st, u) && u != t
    ensures EndPc(st', u)
  {
    hide HeldSession;
  }

  lemma ControlAfter(st: State, st': State, t: ThreadId)
    requires LocksHeld(st) && Known(st) && Lifetime(st) && Effect(st, st', t)
    ensures LocksHeld(st') && Known(st') && Lifetime(st')
  {
    hide LocksHeld, LockEffect, EndEffect, StageEffect, KnownPc, EndPc, Registered, FreedWhenDue;
    LocksAfter(st, st', t);
    forall u: ThreadId
      ensures KnownPc(st', u) && EndPc(st', u)
    {
      if u != t {
        assert KnownPc(st, u) && EndPc(st, u);
        OthersKnown(st, st', t, u);
        OthersEnd(st, st', t, u);
      }
    }
  }

  // ---- Every step has that effect

  lemma EffectOfBegin(st: State, st': State, t: ThreadId, call: Call)
    requires InControl(st, t) && Begin(st, st', t, call)
    ensures Effect(st, st', t)
  {
  }

  // The thread leaves the critical section of the graph without having changed anything.
  ghost predicate LeavesAsIs(st: State, st': State, t: ThreadId) {
    KeepNodes(st, st', t) || GiveUp(st, st', t) || EndRecording(st, st', t)
  }

  lemma EffectOfEnter(st: State, st': State, t: ThreadId)
    requires InControl(st, t) && (Enter(st, st', t) || LeavesAsIs(st, st', t))
    ensures Effect(st, st', t)
  {
  }

  lemma EffectOfLocking(st: State, st': State, t: ThreadId, s: SessionId)
    requires InControl(st, t)
    requires LockNext(st, st', t, s) || LockForExtend(st, st', t, s)
    ensures Effect(st, st', t)
  {
  }

  lemma EffectOfBuilding(st: State, st': State, t: ThreadId, batch: seq<bool>)
    requires InControl(st, t)
    requires AddNodes(st, st', t, batch) || RemoveNodes(st, st', t)
    ensures Effect(st, st', t)
  {
  }

  lemma EffectOfCreating(st: State, st': State, t: ThreadId, s: SessionId, batch: seq<bool>)
    requires InControl(st, t)
    requires Register(st, st', t, s) || FailLoad(st, st', t, s, batch)
    ensures Effect(st, st', t)
  {
  }

  lemma EffectOfFinishLoad(st: State, st': State, t: ThreadId, s: SessionId, batch: seq<bool>)
    requires InControl(st, t) && FinishLoad(st, st', t, s, batch)
    ensures Effect(st, st', t)
  {
  }

  lemma EffectOfChange(st: State, st': State, t: ThreadId, id: NodeId)
    requires InControl(st, t) && Change(st, st', t, id)
    ensures Effect(st, st', t)
  {
  }

  lemma EffectOfCheck(st: State, st': State, t: ThreadId)
    requires InControl(st, t) && Check(st, st', t)
    ensures Effect(st, st', t)
  {
  }

  lemma EffectOfSkipExtend(st: State, st': State, t: ThreadId, s: SessionId)
    requires InControl(st, t) && SkipExtend(st, st', t, s)
    ensures Effect(st, st', t)
  {
  }

  lemma EffectOfSnapshot(st: State, st': State, t: ThreadId, s: SessionId)
    requires InControl(st, t) && Snapshot(st, st', t, s)
    ensures Effect(st, st', t)
  {
  }

  lemma EffectOfSending(st: State, st': State, t: ThreadId)
    requires InControl(st, t)
    requires FailExtend(st, st', t) || FinishExtend(st, st', t)
    ensures Effect(st, st', t)
  {
  }

  lemma EffectOfRequestDelete(st: State, st': State, t: ThreadId)
    requires InControl(st, t) && RequestDelete(st, st', t)
    ensures Effect(st, st', t)
  {
  }

  lemma EffectOfUnregister(st: State, st': State, t: ThreadId, s: SessionId)
    requires InControl(st, t) && Unregister(st, st', t, s)
    ensures Effect(st, st', t)
  {
  }

  lemma EffectOfFreeing(st: State, st': State, t: ThreadId)
    requires InControl(st, t)
    requires FreeGraph(st, st', t) || FreeSession(st, st', t)
    ensures Effect(st, st', t)
  {
  }
}
