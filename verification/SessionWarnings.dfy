/**
  Warnings are exact: a session has a warning only if it runs an outdated copy of a node
  that was changed since the warning was last logged.
 */
module SessionWarnings {
  import opened Options
  import opened SessionProtocol
  import opened SessionInvariants
  import opened SessionControl
  import opened SessionContents

  predicate Records(pc: Pc) {
    pc.Recording? || pc.Checking?
  }

  ghost predicate IsJustified(st: State, s: SessionId)
    requires s in st.sessions && s in st.warnings
  {
    st.warnings[s] ==> exists id :: Outdated(st, s, id)
  }

  // Every copy of the node that the mutator has changed is outdated, on its way or not.
  ghost predicate ChangedNode(st: State, id: NodeId, todo: set<SessionId>) {
    && IsLiveOp(st.slots, id)
    && (forall s | s in todo && s in st.sessions ::
          && id in st.sessions[s].changed
          && (id in st.sessions[s].copies ==> st.sessions[s].copies[id] < Version(st.slots, id)))
    && (forall u: ThreadId | PcOf(st, u).Sending? ::
          id in PcOf(st, u).versions ==> PcOf(st, u).versions[id] < Version(st.slots, id))
  }

  ghost predicate Justified(st: State) {
    && (forall s | s in st.sessions && s in st.warnings :: IsJustified(st, s))
    && (st.graphOwner.Some? && Records(PcOf(st, st.graphOwner.value)) ==>
          ChangedNode(st, PcOf(st, st.graphOwner.value).id, PcOf(st, st.graphOwner.value).todo))
  }

  // ---- Steps that neither change a node nor look at one

  ghost predicate CalmSession(st: State, st': State, s: SessionId)
    requires s in st'.sessions && s in st'.warnings
  {
    st'.warnings[s] ==>
      && s in st.sessions && s in st.warnings && st.warnings[s]
      && SameContents(st.sessions[s], st'.sessions[s])
  }

  ghost predicate CalmRecorder(st: State, st': State) {
    st'.graphOwner.Some? && Records(PcOf(st', st'.graphOwner.value)) ==>
      && st.graphOwner == st'.graphOwner
      && var pc, pc' := PcOf(st, st.graphOwner.value), PcOf(st', st.graphOwner.value);
         && Records(pc) && pc.id == pc'.id && pc.todo == pc'.todo && st'.slots == st.slots
         && (forall s | s in pc.todo && s in st'.sessions ::
               s in st.sessions && SameContents(st.sessions[s], st'.sessions[s]))
         && (forall u: ThreadId | PcOf(st', u).Sending? :: PcOf(st', u) == PcOf(st, u))
  }

  ghost predicate Calm(st: State, st': State) {
    && QuietSlots(st, st') && CalmRecorder(st, st')
    && (forall s | s in st'.sessions && s in st'.warnings :: CalmSession(st, st', s))
  }

  lemma StillOutdated(st: State, st': State, s: SessionId)
    requires Data(st) && QuietSlots(st, st') && s in st.sessions && s in st'.sessions
    requires SameContents(st.sessions[s], st'.sessions[s])
    ensures forall id | Outdated(st, s, id) :: Outdated(st', s, id)
  {
    assert Sent(st, s);
    SlotsBelow(st, st', 0, st.sessions[s].lastNumGraphNodes);
  }

  lemma JustifiedCalm(st: State, st': State)
    requires Data(st) && Justified(st) && Calm(st, st')
    ensures Justified(st')
  {
    hide Outdated, Data, QuietSlots, Base, SameContents;
    forall s | s in st'.sessions && s in st'.warnings
      ensures IsJustified(st', s)
    {
      assert CalmSession(st, st', s);
      if st'.warnings[s] {
        assert IsJustified(st, s);
        StillOutdated(st, st', s);
      }
    }
    if st'.graphOwner.Some? && Records(PcOf(st', st'.graphOwner.value)) {
      StillChanged(st, st', PcOf(st, st.graphOwner.value).id, PcOf(st, st.graphOwner.value).todo);
    }
  }

  lemma StillChanged(st: State, st': State, id: NodeId, todo: set<SessionId>)
    requires ChangedNode(st, id, todo) && st'.slots == st.slots
    requires forall s | s in todo && s in st'.sessions :: s in st.sessions && SameContents(st.sessions[s], st'.sessions[s])
    requires forall u: ThreadId | PcOf(st', u).Sending? :: PcOf(st', u) == PcOf(st, u)
    ensures ChangedNode(st', id, todo)
  {
    hide Version, IsLiveOp;
  }

  // Neither the contents of a session nor a change are at stake.
  ghost predicate Bystander(st: State, st': State, t: ThreadId) {
    Quiet(st, st', {}) && Calm(st, st') && !PcOf(st', t).Sending?
  }

  lemma BystanderAfter(st: State, st': State, t: ThreadId)
    requires Inv(st) && Justified(st) && Effect(st, st', t) && Bystander(st, st', t)
    ensures Inv(st') && Justified(st')
  {
    hide Justified, Calm, Quiet, Effect, LocksHeld, Known, Lifetime, Data, Warned;
    ControlAfter(st, st', t);
    QuietElsewhere(st, st', t, {});
    JustifiedCalm(st, st');
  }

  // Where the thread is, and where the holder of the graph is.
  ghost predicate Located(st: State, t: ThreadId) {
    && InControl(st, t) && (st.graphOwner == Some(t) ==> HoldsGraph(PcOf(st, t)))
    && (st.graphOwner.Some? ==> KnownPc(st, st.graphOwner.value))
    && Base(st) <= |st.slots|
  }

  lemma LocatedNow(st: State, t: ThreadId)
    requires Inv(st)
    ensures Located(st, t)
  {
    hide Sent, SendingPc, Warned;
    InControlNow(st, t);
    assert HoldsGraph(PcOf(st, t)) <==> st.graphOwner == Some(t);
  }

  lemma MovingIsBystander(st: State, st': State, t: ThreadId)
    requires Located(st, t) && (Enter(st, st', t) || LeavesAsIs(st, st', t))
    ensures Bystander(st, st', t)
  {
  }

  lemma LockingIsBystander(st: State, st': State, t: ThreadId, s: SessionId)
    requires Located(st, t) && (LockNext(st, st', t, s) || LockForExtend(st, st', t, s))
    ensures Bystander(st, st', t)
  {
  }

  lemma FailingIsBystander(st: State, st': State, t: ThreadId)
    requires Located(st, t) && FailExtend(st, st', t)
    ensures Bystander(st, st', t)
  {
  }

  lemma BuildingIsBystander(st: State, st': State, t: ThreadId, batch: seq<bool>)
    requires Located(st, t) && (AddNodes(st, st', t, batch) || RemoveNodes(st, st', t))
    ensures Bystander(st, st', t)
  {
  }

  lemma BeginningIsBystander(st: State, st': State, t: ThreadId, call: Call)
    requires Located(st, t) && Begin(st, st', t, call)
    ensures Bystander(st, st', t)
  {
    hide TakesGraph, Extends, Version, QuietSession, QuietSlots;
    BeginningIsQuiet(st, st', t, call);
  }

  lemma BeginningIsQuiet(st: State, st': State, t: ThreadId, call: Call)
    requires Located(st, t) && Begin(st, st', t, call)
    ensures Quiet(st, st', {})
  {
    hide TakesGraph, Extends, Version;
  }

  lemma CreatingIsBystander(st: State, st': State, t: ThreadId, s: SessionId, batch: seq<bool>)
    requires Located(st, t) && (Register(st, st', t, s) || FailLoad(st, st', t, s, batch))
    ensures Bystander(st, st', t)
  {
  }

  lemma DeletingIsBystander(st: State, st': State, t: ThreadId, s: SessionId)
    requires Located(st, t) && (RequestDelete(st, st', t) || Unregister(st, st', t, s))
    ensures Bystander(st, st', t)
  {
  }

  lemma FreeingIsBystander(st: State, st': State, t: ThreadId)
    requires Located(st, t) && (FreeGraph(st, st', t) || FreeSession(st, st', t))
    ensures Bystander(st, st', t)
  {
  }

  lemma CollectingIsCalm(st: State, st': State, t: ThreadId, s: SessionId)
    requires Located(st, t) && (SkipExtend(st, st', t, s) || Snapshot(st, st', t, s))
    ensures Calm(st, st')
  {
  }

  lemma LoadingIsCalm(st: State, st': State, t: ThreadId, s: SessionId, batch: seq<bool>)
    requires Located(st, t) && FinishLoad(st, st', t, s, batch)
    ensures Calm(st, st')
  {
  }

  // ---- Steps that change a node, look at one, or deliver copies

  lemma JustifiedChange(st: State, st': State, t: ThreadId, id: NodeId)
    requires Inv(st) && Justified(st) && Change(st, st', t, id)
    ensures Justified(st')
  {
    hide Sent, SendingPc, Noticed, FreshPc, Version, Outdated, Lifetime;
    forall s | s in st'.sessions
      ensures id in st'.sessions[s].copies ==> st'.sessions[s].copies[id] < Version(st'.slots, id)
      ensures s in st'.warnings ==> IsJustified(st', s)
    {
      assert Sent(st, s) && (s in st.warnings ==> IsJustified(st, s));
      ChangeOutdates(st, st', t, id, s);
    }
    forall u: ThreadId | PcOf(st', u).Sending?
      ensures id in PcOf(st', u).versions ==> PcOf(st', u).versions[id] < Version(st'.slots, id)
    {
      assert SendingPc(st, u);
      ChangeOvertakes(st, st', t, id, u);
    }
  }

  lemma ChangeOutdates(st: State, st': State, t: ThreadId, id: NodeId, s: SessionId)
    requires Change(st, st', t, id) && s in st.sessions && Sent(st, s)
    ensures s in st'.sessions
    ensures id in st'.sessions[s].copies ==> st'.sessions[s].copies[id] < Version(st'.slots, id)
    ensures forall id' | Outdated(st, s, id') :: Outdated(st', s, id')
  {
  }

  lemma ChangeOvertakes(st: State, st': State, t: ThreadId, id: NodeId, u: ThreadId)
    requires Change(st, st', t, id) && PcOf(st', u).Sending? && SendingPc(st, u)
    ensures id in PcOf(st', u).versions ==> PcOf(st', u).versions[id] < Version(st'.slots, id)
  {
    assert PcOf(st', u) == PcOf(st, u);
  }

  lemma StaysChanged(st: State, st': State, t: ThreadId, id: NodeId, todo: set<SessionId>, todo': set<SessionId>)
    requires ChangedNode(st, id, todo) && todo' <= todo && (Check(st, st', t) || FinishExtend(st, st', t))
    ensures ChangedNode(st', id, todo')
  {
    hide Version, IsLiveOp;
    forall u: ThreadId | PcOf(st', u).Sending?
      ensures PcOf(st', u) == PcOf(st, u)
    {
    }
    assert PcOf(st, t).Sending? && id in PcOf(st, t).versions ==> PcOf(st, t).versions[id] < Version(st.slots, id);
  }

  // Having run a changed node, the session runs an outdated copy of it.
  lemma JustifiedCheck(st: State, st': State, t: ThreadId)
    requires Inv(st) && Justified(st) && Check(st, st', t)
    ensures Justified(st')
  {
    hide Sent, SendingPc, Noticed, FreshPc, Version, IsJustified, Lifetime, ChangedNode;
    var Checking(id, todo, s) := PcOf(st, t);
    assert KnownPc(st, t) && Sent(st, s) && ChangedNode(st, id, todo);
    StaysChanged(st, st', t, id, todo, todo - {s});
    forall s' | s' in st'.sessions && s' in st'.warnings
      ensures IsJustified(st', s')
    {
      CheckJustifies(st, st', t, s');
    }
  }

  lemma CheckJustifies(st: State, st': State, t: ThreadId, s': SessionId)
    requires Check(st, st', t) && Sent(st, PcOf(st, t).s) && PcOf(st, t).s in PcOf(st, t).todo
    requires ChangedNode(st, PcOf(st, t).id, PcOf(st, t).todo)
    requires s' in st.sessions && s' in st.warnings && IsJustified(st, s') && s' in st'.warnings
    ensures IsJustified(st', s')
  {
    hide LiveOps, Version;
    var Checking(id, todo, s) := PcOf(st, t);
    if st.warnings[s'] {
      var id' :| Outdated(st, s', id');
      assert Outdated(st', s', id');
    } else if st'.warnings[s'] {
      LiveOpsExact(st.slots, 0, st.sessions[s].lastNumGraphNodes);
      assert Outdated(st', s, id);
    }
  }

  // The new copies are of nodes that the session had no copies of.
  lemma JustifiedFinishExtend(st: State, st': State, t: ThreadId)
    requires Inv(st) && Justified(st) && FinishExtend(st, st', t)
    ensures Justified(st')
  {
    hide Sent, SendingPc, Noticed, FreshPc, Version, IsJustified, Lifetime;
    assert KnownPc(st, t);
    if st'.graphOwner.Some? && Records(PcOf(st', st'.graphOwner.value)) {
      var pc := PcOf(st, st.graphOwner.value);
      StaysChanged(st, st', t, pc.id, pc.todo, pc.todo);
    }
    forall s | s in st'.sessions && s in st'.warnings
      ensures IsJustified(st', s)
    {
      ExtendKeepsJustified(st, st', t, s);
    }
  }

  lemma ExtendKeepsJustified(st: State, st': State, t: ThreadId, s: SessionId)
    requires Data(st) && FinishExtend(st, st', t) && s in st.sessions && s in st.warnings && IsJustified(st, s)
    ensures s in st'.sessions && s in st'.warnings && IsJustified(st', s)
  {
    hide LiveOps, Version;
    assert SendingPc(st, t) && Sent(st, s);
    LiveOpsExact(st.slots, 0, st.sessions[s].lastNumGraphNodes);
    LiveOpsExact(st.slots, st.sessions[s].lastNumGraphNodes, PcOf(st, t).numNodes);
    if st.warnings[s] {
      var id :| Outdated(st, s, id);
      assert Outdated(st', s, id);
    }
  }
}
