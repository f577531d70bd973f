/**
  What sessions have received and which changes they have been warned of, step by step.
 */
module SessionContents {
  import opened Options
  import opened SessionProtocol
  import opened SessionInvariants
  import opened SessionControl

  // ---- Sessions that a step leaves alone

  ghost predicate SameContents(a: Session, b: Session) {
    a.lastNumGraphNodes == b.lastNumGraphNodes && a.sent == b.sent && a.copies == b.copies && a.changed == b.changed
  }

  ghost predicate Blank(session: Session) {
    session.lastNumGraphNodes == 0 && session.sent == [] && session.copies == map[] && session.changed == {}
  }

  ghost predicate QuietSession(st: State, st': State, s: SessionId)
    requires s in st'.sessions
  {
    && (if s in st.sessions
        then && SameContents(st.sessions[s], st'.sessions[s])
             && (st'.sessions[s].stage.Creating? ==> st.sessions[s].stage.Creating?)
        else Blank(st'.sessions[s]))
    && (s in st'.warnings ==>
          && s in st.sessions
          && (st.sessions[s].stage.Creating? || (s in st.warnings && st'.warnings[s] == st.warnings[s])))
    && (forall id | Pending(st, s, id) :: Pending(st', s, id))
  }

  // Finished nodes stay as they are.
  ghost predicate QuietSlots(st: State, st': State) {
    Base(st) <= |st.slots| && Base(st) <= Base(st') <= |st'.slots| && st'.slots[..Base(st)] == st.slots[..Base(st)]
  }

  // The step leaves the contents of all but the loud sessions alone.
  ghost predicate Quiet(st: State, st': State, loud: set<SessionId>) {
    QuietSlots(st, st') && forall s | s in st'.sessions && s !in loud :: QuietSession(st, st', s)
  }

  // The thread works on its own sessions: it holds their mutex, or is still creating them.
  ghost predicate Owns(st: State, t: ThreadId, s: SessionId) {
    HeldSession(PcOf(st, t)) == Some(s) || InStage(st, s, Creating(t))
  }

  ghost predicate InOrder(st: State, s: SessionId)
    requires s in st.sessions
  {
    Sent(st, s) && (s in st.warnings ==> Noticed(st, s))
  }

  lemma SlotsBelow(st: State, st': State, lo: nat, hi: nat)
    requires QuietSlots(st, st') && hi <= Base(st)
    ensures LiveOps(st.slots, lo, hi) == LiveOps(st'.slots, lo, hi)
    ensures forall id | id in LiveOps(st.slots, lo, hi) :: Version(st.slots, id) == Version(st'.slots, id)
  {
    forall id | lo <= id < hi
      ensures st.slots[id] == st'.slots[id]
    {
      assert st.slots[..Base(st)][id] == st'.slots[..Base(st)][id];
    }
    LiveOpsSame(st.slots, st'.slots, lo, hi);
    LiveOpsExact(st.slots, lo, hi);
  }

  lemma QuietSent(st: State, st': State, s: SessionId)
    requires Data(st) && Warned(st) && QuietSlots(st, st') && s in st'.sessions && QuietSession(st, st', s)
    ensures InOrder(st', s)
  {
    hide Base, Pending;
    assert LiveOps(st.slots, 0, 0) == [] == LiveOps(st'.slots, 0, 0);
    if s in st.sessions {
      assert Sent(st, s);
      SlotsBelow(st, st', 0, st.sessions[s].lastNumGraphNodes);
      if s in st'.warnings && s in st.warnings {
        assert Noticed(st, s);
      }
    }
  }

  lemma QuietSending(st: State, st': State, u: ThreadId)
    requires Data(st) && Warned(st) && QuietSlots(st, st')
    requires PcOf(st', u).Sending? && PcOf(st', u) == PcOf(st, u)
    requires PcOf(st', u).s in st'.sessions && QuietSession(st, st', PcOf(st', u).s)
    ensures SendingPc(st', u) && FreshPc(st', u)
  {
    hide Base, Pending, LiveOps;
    var pc := PcOf(st', u);
    assert SendingPc(st, u) && FreshPc(st, u);
    SlotsBelow(st, st', st.sessions[pc.s].lastNumGraphNodes, pc.numNodes);
  }

  // Whoever is sending to a session holds its mutex, so the step does not work on it.
  lemma SendingElsewhere(st: State, st': State, t: ThreadId, u: ThreadId, loud: set<SessionId>)
    requires LocksHeld(st) && Known(st) && Known(st') && Data(st) && Warned(st)
    requires Quiet(st, st', loud) && (forall s | s in loud :: Owns(st, t, s))
    requires u != t && PcOf(st', u) == PcOf(st, u)
    ensures SendingPc(st', u) && FreshPc(st', u)
  {
    hide Base, Pending, QuietSession, Data, Warned;
    if PcOf(st, u).Sending? {
      assert KnownPc(st, u) && KnownPc(st', u);
      assert HeldSession(PcOf(st, u)) == Some(PcOf(st, u).s);
      QuietSending(st, st', u);
    }
  }

  lemma QuietElsewhere(st: State, st': State, t: ThreadId, loud: set<SessionId>)
    requires Inv(st) && Effect(st, st', t) && Quiet(st, st', loud)
    requires forall s | s in loud :: Owns(st, t, s) && s in st'.sessions && InOrder(st', s)
    requires SendingPc(st', t) && FreshPc(st', t)
    ensures Data(st') && Warned(st')
  {
    hide LocksHeld, Known, Lifetime, Base, Pending, Sent, Noticed, SendingPc, FreshPc, QuietSession, Owns;
    hide StageAndEndEffect;
    ControlAfter(st, st', t);
    forall s | s in st'.sessions
      ensures InOrder(st', s)
    {
      if s !in loud {
        QuietSent(st, st', s);
      }
    }
    forall u: ThreadId
      ensures SendingPc(st', u) && FreshPc(st', u)
    {
      if u != t {
        SendingElsewhere(st, st', t, u, loud);
      }
    }
  }

  // ---- Steps on one session

  // Inside the graph's critical section, with the session's mutex in hand.
  lemma OwnInOrder(st: State, t: ThreadId, s: SessionId)
    requires LocksHeld(st) && Known(st) && Data(st) && Warned(st)
    requires HoldsGraph(PcOf(st, t)) && HeldSession(PcOf(st, t)) == Some(s)
    ensures st.graphOwner == Some(t) && s in st.sessions && s in st.warnings && InOrder(st, s)
  {
    hide Sent, SendingPc, Noticed, FreshPc;
    assert KnownPc(st, t);
  }

  lemma ContentsFinishLoad(st: State, st': State, t: ThreadId, s: SessionId, batch: seq<bool>)
    requires Inv(st) && FinishLoad(st, st', t, s, batch)
    ensures Data(st') && Warned(st')
  {
    hide LocksHeld, Known, Lifetime, Data, Warned, Effect, Quiet, InOrder, Owns, LiveOps, Versions, NewSlots;
    InControlNow(st, t);
    EffectOfFinishLoad(st, st', t, s, batch);
    LoadedSession(st, st', t, s, batch);
    LoadElsewhere(st, st', t, s, batch);
    QuietElsewhere(st, st', t, {s});
  }

  lemma LoadedSession(st: State, st': State, t: ThreadId, s: SessionId, batch: seq<bool>)
    requires FinishLoad(st, st', t, s, batch)
    ensures InOrder(st', s)
  {
    LiveOpsExact(st'.slots, 0, |st'.slots|);
  }

  lemma LoadElsewhere(st: State, st': State, t: ThreadId, s: SessionId, batch: seq<bool>)
    requires Inv(st) && FinishLoad(st, st', t, s, batch)
    ensures Quiet(st, st', {s}) && Owns(st, t, s)
  {
    hide Version, LiveOps, Sent, Noticed, SendingPc, FreshPc, Warned, Lifetime;
    assert KnownPc(st, t);
  }

  // A session that has run the node gets a warning; any other has no copy of the node.
  lemma ContentsCheck(st: State, st': State, t: ThreadId)
    requires Inv(st) && Check(st, st', t)
    ensures Data(st') && Warned(st')
  {
    hide LocksHeld, Known, Lifetime, Data, Warned, Effect, Quiet, InOrder, Owns;
    InControlNow(st, t);
    EffectOfCheck(st, st', t);
    CheckElsewhere(st, st', t);
    OwnInOrder(st, t, PcOf(st, t).s);
    CheckedSession(st, st', t, PcOf(st, t).s);
    QuietElsewhere(st, st', t, {PcOf(st, t).s});
  }

  lemma CheckedSession(st: State, st': State, t: ThreadId, s: SessionId)
    requires Check(st, st', t) && s == PcOf(st, t).s && st.graphOwner == Some(t)
    requires s in st.warnings && InOrder(st, s)
    ensures s in st'.sessions && InOrder(st', s)
  {
    hide LiveOps, Version;
    LiveOpsExact(st.slots, 0, st.sessions[s].lastNumGraphNodes);
    assert !st'.warnings[s] ==> forall id :: !Outdated(st, s, id);
    assert forall id :: Outdated(st', s, id) ==> Outdated(st, s, id);
  }

  lemma CheckElsewhere(st: State, st': State, t: ThreadId)
    requires Inv(st) && Check(st, st', t)
    ensures Quiet(st, st', {PcOf(st, t).s}) && Owns(st, t, PcOf(st, t).s)
  {
    hide Version, LiveOps, Sent, Noticed, SendingPc, FreshPc, Warned, Lifetime;
    assert KnownPc(st, t);
  }

  lemma ContentsSkipExtend(st: State, st': State, t: ThreadId, s: SessionId)
    requires Inv(st) && SkipExtend(st, st', t, s)
    ensures Data(st') && Warned(st')
  {
    hide LocksHeld, Known, Lifetime, Data, Warned, Effect, Quiet, InOrder, Owns;
    InControlNow(st, t);
    EffectOfSkipExtend(st, st', t, s);
    CollectElsewhere(st, st', t, s);
    OwnInOrder(st, t, s);
    CollectedSession(st, st', t, s);
    QuietElsewhere(st, st', t, {s});
  }

  lemma ContentsSnapshot(st: State, st': State, t: ThreadId, s: SessionId)
    requires Inv(st) && Snapshot(st, st', t, s)
    ensures Data(st') && Warned(st')
  {
    hide LocksHeld, Known, Lifetime, Data, Warned, Effect, Quiet, InOrder, Owns;
    InControlNow(st, t);
    EffectOfSnapshot(st, st', t, s);
    CollectElsewhere(st, st', t, s);
    OwnInOrder(st, t, s);
    CollectedSession(st, st', t, s);
    SnapshotIsFresh(st, st', t, s);
    QuietElsewhere(st, st', t, {s});
  }

  lemma SnapshotIsFresh(st: State, st': State, t: ThreadId, s: SessionId)
    requires Snapshot(st, st', t, s) && st.graphOwner == Some(t) && InOrder(st, s)
    ensures SendingPc(st', t) && FreshPc(st', t)
  {
    hide LiveOps;
  }

  lemma CollectElsewhere(st: State, st': State, t: ThreadId, s: SessionId)
    requires Inv(st) && (SkipExtend(st, st', t, s) || Snapshot(st, st', t, s))
    ensures Quiet(st, st', {s}) && Owns(st, t, s)
  {
    hide Version, Versions, LiveOps, Sent, Noticed, SendingPc, FreshPc, Warned, Lifetime;
    assert KnownPc(st, t);
  }

  lemma CollectedSession(st: State, st': State, t: ThreadId, s: SessionId)
    requires SkipExtend(st, st', t, s) || Snapshot(st, st', t, s)
    requires st.graphOwner == Some(t) && InOrder(st, s)
    ensures InOrder(st', s)
  {
    hide LiveOps, Version;
    assert !st.warnings[s] ==> forall id :: !Outdated(st, s, id);
    assert forall id :: Outdated(st', s, id) ==> !st.warnings[s] && Outdated(st, s, id);
  }

  // What has arrived was up to date when it was collected, and changes since then are pending:
  // the mutator cannot look at the session before the session mutex is free.
  lemma ContentsFinishExtend(st: State, st': State, t: ThreadId)
    requires Inv(st) && FinishExtend(st, st', t)
    ensures Data(st') && Warned(st')
  {
    hide LocksHeld, Known, Lifetime, Data, Warned, Effect, Quiet, InOrder, Owns;
    InControlNow(st, t);
    EffectOfSending(st, st', t);
    FinishElsewhere(st, st', t);
    FinishedSession(st, st', t, PcOf(st, t).s);
    QuietElsewhere(st, st', t, {PcOf(st, t).s});
  }

  lemma FinishedSession(st: State, st': State, t: ThreadId, s: SessionId)
    requires Inv(st) && FinishExtend(st, st', t) && s == PcOf(st, t).s
    ensures InOrder(st', s)
  {
    hide EndPc, Lifetime, LiveOps, Version, Noticed, FreshPc, Sent, SendingPc;
    assert KnownPc(st, t) && SendingPc(st, t) && FreshPc(st, t) && Sent(st, s) && Noticed(st, s);
    FinishedSent(st, st', t, s);
    FinishedNoticed(st, st', t, s);
  }

  lemma FinishedSent(st: State, st': State, t: ThreadId, s: SessionId)
    requires FinishExtend(st, st', t) && s == PcOf(st, t).s && st.graphOwner != Some(t)
    requires SendingPc(st, t) && Sent(st, s) && st.sessions[s].stage.Open?
    ensures Sent(st', s)
  {
    hide Version, LiveOps;
    LiveOpsSplit(st.slots, 0, st.sessions[s].lastNumGraphNodes, PcOf(st, t).numNodes);
  }

  lemma FinishedNoticed(st: State, st': State, t: ThreadId, s: SessionId)
    requires FinishExtend(st, st', t) && s == PcOf(st, t).s && st.graphOwner != Some(t)
    requires s in st.warnings && Noticed(st, s) && FreshPc(st, t)
    ensures Noticed(st', s)
  {
    hide Version;
    assert forall id :: Pending(st, s, id) ==> Pending(st', s, id);
    assert forall id | Outdated(st', s, id) && id !in PcOf(st, t).versions :: Outdated(st, s, id);
  }

  lemma FinishElsewhere(st: State, st': State, t: ThreadId)
    requires Inv(st) && FinishExtend(st, st', t)
    ensures Quiet(st, st', {PcOf(st, t).s}) && Owns(st, t, PcOf(st, t).s)
  {
    hide Version, LiveOps, Sent, Noticed, SendingPc, FreshPc, Warned, Lifetime;
    assert KnownPc(st, t);
  }

  // ---- A change is pending for every session at once

  lemma ContentsChange(st: State, st': State, t: ThreadId, id: NodeId)
    requires Inv(st) && Change(st, st', t, id)
    ensures Data(st') && Warned(st')
  {
    hide Sent, Noticed, SendingPc, FreshPc, EndPc, LiveOps, Version, Lifetime;
    assert KnownPc(st, t);
    forall s | s in st'.sessions
      ensures InOrder(st', s)
    {
      ChangeSession(st, st', t, id, s);
    }
    forall u: ThreadId
      ensures SendingPc(st', u) && FreshPc(st', u)
    {
      assert SendingPc(st, u) && FreshPc(st, u) && KnownPc(st, u);
      ChangeSending(st, st', t, id, u);
      ChangeFresh(st, st', t, id, u);
    }
  }

  lemma ChangeSession(st: State, st': State, t: ThreadId, id: NodeId, s: SessionId)
    requires Inv(st) && Change(st, st', t, id) && s in st'.sessions
    ensures InOrder(st', s)
  {
    hide Sent, Noticed, KnownPc, SendingPc, FreshPc, EndPc, Lifetime;
    assert Sent(st, s) && (s in st.warnings ==> Noticed(st, s));
    ChangeSent(st, st', t, id, s);
    if s in st.warnings {
      ChangeNoticed(st, st', t, id, s);
    }
  }

  lemma ChangeSent(st: State, st': State, t: ThreadId, id: NodeId, s: SessionId)
    requires Change(st, st', t, id) && st.graphOwner == Some(t)
    requires s in st.sessions && Sent(st, s)
    ensures Sent(st', s)
  {
    LiveOpsSame(st.slots, st'.slots, 0, st.sessions[s].lastNumGraphNodes);
  }

  lemma ChangeNoticed(st: State, st': State, t: ThreadId, id: NodeId, s: SessionId)
    requires Change(st, st', t, id) && st.graphOwner == Some(t)
    requires s in st.sessions && s in st.warnings && Noticed(st, s)
    ensures Noticed(st', s)
  {
    assert forall id' | id' != id :: Version(st'.slots, id') == Version(st.slots, id');
    assert forall id' | Outdated(st', s, id') && !Outdated(st, s, id') :: id' == id;
    assert !st.warnings[s] ==> forall id' :: !Outdated(st, s, id');
    assert Pending(st', s, id);
  }

  lemma ChangeSending(st: State, st': State, t: ThreadId, id: NodeId, u: ThreadId)
    requires Change(st, st', t, id) && st.graphOwner == Some(t) && SendingPc(st, u)
    ensures SendingPc(st', u)
  {
    if PcOf(st, u).Sending? {
      LiveOpsSame(st.slots, st'.slots, st.sessions[PcOf(st, u).s].lastNumGraphNodes, PcOf(st, u).numNodes);
    }
  }

  lemma ChangeFresh(st: State, st': State, t: ThreadId, id: NodeId, u: ThreadId)
    requires Change(st, st', t, id) && st.graphOwner == Some(t) && FreshPc(st, u)
    requires PcOf(st, u).Sending? ==> PcOf(st, u).s in st.warnings
    ensures FreshPc(st', u)
  {
    hide LiveOps;
    assert forall id' | id' != id :: Version(st'.slots, id') == Version(st.slots, id');
  }
}
