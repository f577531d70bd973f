/**
  What the calls of the C API achieve, from the step in which they take effect to their end:
  an Extend that succeeds delivers every node, additions stand or leave a gap, a recorded
  mutation warns every session that has run past the node, and deleted sessions are gone.
 */
module SessionCalls {
  import opened Options
  import opened SessionProtocol
  import opened SessionInvariants
  import opened SessionControl
  import opened SessionContents
  import opened SessionWarnings
  import opened SessionSafety

  // ---- Steps of other threads

  lemma StepHasEffect(st: State, st': State, u: ThreadId)
    requires Inv(st) && Justified(st) && Step(st, st', u)
    ensures Effect(st, st', u)
  {
    hide Inv, Justified, Proceed, Begin, Effect;
    if Proceed(st, st', u) {
      ProceedKeepsInv(st, st', u);
    } else {
      var call :| Begin(st, st', u, call);
      BeginKeepsInv(st, st', u, call);
    }
  }

  // While a thread holds the graph's mutex, nobody else touches the nodes or the table of
  // sessions; sessions in the table stay, and their counters never go back.
  ghost predicate GraphLeftAlone(st: State, st': State) {
    && st'.slots == st.slots && st'.warnings == st.warnings && st'.graphOwner == st.graphOwner
    && forall s | s in st.warnings && s in st.sessions ::
        s in st'.sessions && st.sessions[s].lastNumGraphNodes <= st'.sessions[s].lastNumGraphNodes
  }

  // All other steps are taken inside the graph's critical section.
  lemma OutsidersSteps(st: State, st': State, u: ThreadId)
    requires Proceed(st, st', u) && !HoldsGraph(PcOf(st, u)) && st.graphOwner.Some?
    ensures FailExtend(st, st', u) || FinishExtend(st, st', u) || FreeGraph(st, st', u) || FreeSession(st, st', u)
  {
    hide LiveOps, Version, Versions, NewSlots, Vacate, Logged;
  }

  lemma OutsiderLeavesGraph(st: State, st': State, u: ThreadId)
    requires KnownPc(st, u) && Registered(st) && SendingPc(st, u)
    requires FailExtend(st, st', u) || FinishExtend(st, st', u) || FreeGraph(st, st', u) || FreeSession(st, st', u)
    ensures GraphLeftAlone(st, st')
  {
    hide LiveOps, Version;
  }

  lemma BeginningLeavesGraph(st: State, st': State, u: ThreadId, call: Call)
    requires Begin(st, st', u, call)
    ensures GraphLeftAlone(st, st')
  {
    hide TakesGraph, Extends;
  }

  lemma OthersLeaveGraph(st: State, st': State, u: ThreadId, t: ThreadId)
    requires Inv(st) && Justified(st) && Step(st, st', u) && u != t && st.graphOwner == Some(t)
    ensures GraphLeftAlone(st, st') && PcOf(st', t) == PcOf(st, t)
  {
    hide Proceed, Begin, FailExtend, FinishExtend, FreeGraph, FreeSession, GraphLeftAlone;
    hide KnownPc, EndPc, Sent, SendingPc, Noticed, FreshPc, Registered, FreedWhenDue, Justified, StageAndEndEffect;
    assert HoldsGraph(PcOf(st, u)) <==> st.graphOwner == Some(u);
    assert KnownPc(st, u) && SendingPc(st, u);
    StepHasEffect(st, st', u);
    if Proceed(st, st', u) {
      OutsidersSteps(st, st', u);
      OutsiderLeavesGraph(st, st', u);
    } else {
      var call :| Begin(st, st', u, call);
      BeginningLeavesGraph(st, st', u, call);
    }
  }

  // ---- Finished nodes stay

  // Nodes of finished additions are neither removed nor turned into others.
  ghost predicate NodesStay(st: State, st': State) {
    && Base(st) <= Base(st') <= |st'.slots|
    && forall id: NodeId | id < Base(st) :: IsLiveOp(st.slots, id) <==> IsLiveOp(st'.slots, id)
  }

  // Nodes are added behind the others; a thread that may still take its nodes back knows where
  // they begin.
  ghost predicate OnlyAdds(st: State, st': State, t: ThreadId) {
    && st.slots <= st'.slots
    && (PcOf(st', t).Tentative? ==> PcOf(st', t).firstNew == |st.slots|)
  }

  lemma AddingKeepsNodes(st: State, st': State, t: ThreadId)
    requires Located(st, t) && LockEffect(st, st', t) && OnlyAdds(st, st', t)
    ensures NodesStay(st, st')
  {
    hide HeldSession, KnownPc, EndPc;
  }

  lemma BuildingAdds(st: State, st': State, t: ThreadId)
    requires Builds(st, st', t)
    ensures OnlyAdds(st, st', t) || RemoveNodes(st, st', t)
  {
    hide RemoveNodes, NewSlots;
    if batch :| AddNodes(st, st', t, batch) {
      assert st'.slots == st.slots + NewSlots(batch);
    }
  }

  lemma CreatingAdds(st: State, st': State, t: ThreadId)
    requires Creates(st, st', t)
    ensures OnlyAdds(st, st', t)
  {
    hide LiveOps, Version, Versions, NewSlots;
  }

  lemma MutatingAddsNothing(st: State, st': State, t: ThreadId)
    requires Mutates(st, st', t)
    ensures OnlyAdds(st, st', t) || exists id :: Change(st, st', t, id)
  {
    hide Change;
  }

  lemma CollectingAddsNothing(st: State, st': State, t: ThreadId)
    requires Collects(st, st', t)
    ensures OnlyAdds(st, st', t)
  {
    hide LiveOps, Version, Versions, Logged;
  }

  lemma DeletingAddsNothing(st: State, st': State, t: ThreadId)
    requires Deletes(st, st', t) && KnownPc(st, t)
    ensures OnlyAdds(st, st', t)
  {
    hide KnownCall, InStage;
  }

  lemma OtherwiseAddsNothing(st: State, st': State, t: ThreadId)
    requires Enter(st, st', t) || FinishExtend(st, st', t) || exists call :: Begin(st, st', t, call)
    ensures OnlyAdds(st, st', t)
  {
    hide MayCall;
  }

  lemma RemovingKeepsNodes(st: State, st': State, t: ThreadId)
    requires Located(st, t) && RemoveNodes(st, st', t)
    ensures NodesStay(st, st')
  {
    hide KnownPc, EndPc;
  }

  lemma ChangingKeepsNodes(st: State, st': State, t: ThreadId, id: NodeId)
    requires Located(st, t) && Change(st, st', t, id)
    ensures NodesStay(st, st')
  {
    hide KnownPc, EndPc;
  }

  lemma StepKeepsNodes(st: State, st': State, t: ThreadId)
    requires Inv(st) && Justified(st) && Step(st, st', t)
    ensures NodesStay(st, st')
  {
    hide Inv, Justified, LockEffect, StageAndEndEffect, NodesStay, OnlyAdds, KnownPc, EndPc, Change, RemoveNodes;
    hide Enter, Builds, Creates, Mutates, Collects, Deletes, FinishExtend, Begin;
    LocatedNow(st, t);
    StepHasEffect(st, st', t);
    if Builds(st, st', t) {
      BuildingAdds(st, st', t);
    } else if Creates(st, st', t) {
      CreatingAdds(st, st', t);
    } else if Mutates(st, st', t) {
      MutatingAddsNothing(st, st', t);
    } else if Collects(st, st', t) {
      CollectingAddsNothing(st, st', t);
    } else if Deletes(st, st', t) {
      DeletingAddsNothing(st, st', t);
    } else {
      OtherwiseAddsNothing(st, st', t);
    }
    if OnlyAdds(st, st', t) {
      AddingKeepsNodes(st, st', t);
    } else if id :| Change(st, st', t, id) {
      ChangingKeepsNodes(st, st', t, id);
    } else {
      RemovingKeepsNodes(st, st', t);
    }
  }

  lemma {:induction false} NodesStayThroughout(run: seq<State>, i: nat, j: nat)
    requires IsRun(run) && i <= j < |run|
    ensures NodesStay(run[i], run[j])
  {
    hide Inv, Justified, Step, IsLiveOp;
    RunsKeepInv(run, j);
    if i < j {
      NodesStayThroughout(run, i, j - 1);
      RunsKeepInv(run, j - 1);
      assert Next(run[j - 1], run[j]);
      var t: ThreadId :| Step(run[j - 1], run[j], t);
      StepKeepsNodes(run[j - 1], run[j], t);
    } else {
      BaseInRange(run[j]);
    }
  }

  lemma BaseInRange(st: State)
    requires Inv(st)
    ensures Base(st) <= |st.slots|
  {
    hide LocksHeld, Known, Lifetime, Warned, Sent, SendingPc;
  }

  // ---- Extend

  // The loop that fills in the graph to send makes up the snapshot.
  method TakeSnapshot(st: State, t: ThreadId, s: SessionId) returns (st': State)
    requires PcOf(st, t) == Extending(s) && s in st.sessions && s in st.warnings
    requires st.sessions[s].lastNumGraphNodes < |st.slots|
    ensures Snapshot(st, st', t, s)
  {
    var ids := CollectNewNodes(st.slots, st.sessions[s].lastNumGraphNodes);
    st' := Leave(st.(warnings := st.warnings[s := false], sessions := st.sessions[s := Logged(st, s)]), t,
                 Sending(s, |st.slots|, ids, Versions(st.slots, ids)));
  }

  // The thread leaves the graph with a snapshot for session s at i, and is done with sending it,
  // successfully, at j + 1.
  ghost predicate SendsFrom(run: seq<State>, i: nat, j: nat, t: ThreadId, s: SessionId) {
    && i < j < |run| - 1
    && PcOf(run[i], t) == Extending(s) && run[i].graphOwner == Some(t) && run[i + 1].graphOwner != Some(t)
    && (forall k | i < k <= j :: PcOf(run[k], t).Sending?)
    && FinishExtend(run[j], run[j + 1], t)
  }

  lemma LeavingIsSnapshot(st: State, st': State, t: ThreadId, s: SessionId)
    requires Step(st, st', t) && PcOf(st, t) == Extending(s) && PcOf(st', t).Sending?
    ensures PcOf(st', t).s == s && PcOf(st', t).numNodes == |st.slots|
  {
    hide LiveOps, Version, Versions, MayCall;
  }

  lemma SendingEnds(st: State, st': State, t: ThreadId)
    requires Step(st, st', t) && PcOf(st, t).Sending?
    ensures PcOf(st', t).Idle?
  {
    hide LiveOps, Version, Versions, MayCall;
  }

  lemma ChangedPcMoved(st: State, st': State, t: ThreadId)
    requires Inv(st) && Justified(st) && Next(st, st')
    ensures PcOf(st', t) == PcOf(st, t) || Step(st, st', t)
  {
    hide Inv, Justified, Step, StageAndEndEffect, HoldsGraph, HeldSession;
    var u: ThreadId :| Step(st, st', u);
    StepHasEffect(st, st', u);
  }

  lemma {:induction false} StaysSending(run: seq<State>, i: nat, j: nat, t: ThreadId)
    requires IsRun(run) && i <= j < |run| && forall k | i <= k <= j :: PcOf(run[k], t).Sending?
    ensures PcOf(run[j], t) == PcOf(run[i], t)
  {
    hide Inv, Justified, Step;
    if i < j {
      StaysSending(run, i, j - 1, t);
      RunsKeepInv(run, j - 1);
      ChangedPcMoved(run[j - 1], run[j], t);
      if Step(run[j - 1], run[j], t) {
        SendingEnds(run[j - 1], run[j], t);
      }
    }
  }

  // An Extend that succeeds has delivered every node that the graph had when it let go of the
  // graph's mutex.
  lemma ExtendDeliversEverything(run: seq<State>, i: nat, j: nat, t: ThreadId, s: SessionId)
    requires IsRun(run) && SendsFrom(run, i, j, t, s)
    ensures s in run[j + 1].sessions && run[j + 1].sessions[s].lastNumGraphNodes == |run[i].slots|
    ensures forall id: NodeId | id < |run[i].slots| && IsLiveOp(run[i].slots, id) :: id in run[j + 1].sessions[s].sent
  {
    hide Inv, Justified, Step, IsLiveOp;
    RunsKeepInv(run, i);
    ChangedPcMoved(run[i], run[i + 1], t);
    LeavingIsSnapshot(run[i], run[i + 1], t, s);
    StaysSending(run, i + 1, j, t);
    NodesStayThroughout(run, i, j + 1);
    SentExactlyOnce(run, j + 1, s);
  }

  // It also succeeds if there is nothing to send, and then nothing was missing.
  lemma NothingIsMissing(run: seq<State>, i: nat, t: ThreadId, s: SessionId)
    requires IsRun(run) && i + 1 < |run| && SkipExtend(run[i], run[i + 1], t, s)
    requires |run[i].slots| <= run[i].sessions[s].lastNumGraphNodes
    ensures s in run[i + 1].sessions && run[i + 1].sessions[s].lastNumGraphNodes == |run[i].slots|
    ensures forall id: NodeId | id < |run[i].slots| && IsLiveOp(run[i].slots, id) :: id in run[i + 1].sessions[s].sent
  {
    hide Inv, Justified, IsLiveOp;
    SentExactlyOnce(run, i, s);
  }

  // ---- Adding nodes

  lemma TentativeEnds(st: State, st': State, t: ThreadId)
    requires Step(st, st', t) && PcOf(st, t).Tentative?
    ensures PcOf(st', t).Idle? && (KeepNodes(st, st', t) || RemoveNodes(st, st', t))
  {
    hide LiveOps, Version, Versions, MayCall;
  }

  lemma {:induction false} StaysTentative(run: seq<State>, i: nat, j: nat, t: ThreadId)
    requires IsRun(run) && i <= j < |run| && forall k | i <= k <= j :: PcOf(run[k], t).Tentative?
    ensures PcOf(run[j], t) == PcOf(run[i], t) && run[j].slots == run[i].slots
  {
    hide Inv, Justified, Step;
    if i < j {
      StaysTentative(run, i, j - 1, t);
      RunsKeepInv(run, j - 1);
      assert Next(run[j - 1], run[j]);
      var u: ThreadId :| Step(run[j - 1], run[j], u);
      if u == t {
        TentativeEnds(run[j - 1], run[j], t);
      } else {
        HoldsTheGraph(run[j - 1], t);
        OthersLeaveGraph(run[j - 1], run[j], u, t);
      }
    }
  }

  lemma HoldsTheGraph(st: State, t: ThreadId)
    requires Inv(st) && HoldsGraph(PcOf(st, t))
    ensures st.graphOwner == Some(t)
  {
    hide Known, Lifetime, Data, Warned;
  }

  // The nodes of the batch are there, as they were asked for, or their ids are vacant.
  ghost predicate BatchEndsAs(slots: seq<Slot>, first: nat, batch: seq<bool>, kept: bool) {
    && |slots| == first + |batch|
    && forall id | first <= id < |slots| :: slots[id] == if kept then Occupied(batch[id - first], 0) else Vacant
  }

  // The thread adds a batch of nodes at i and is done at j + 1: if it has kept them they stand
  // behind the nodes that were there, as they were asked for; if not, their ids are a gap. Nothing
  // happens to the other nodes.
  lemma AdditionEnds(run: seq<State>, i: nat, j: nat, t: ThreadId, batch: seq<bool>)
    requires IsRun(run) && i < j < |run| - 1 && AddNodes(run[i], run[i + 1], t, batch)
    requires (forall k | i < k <= j :: PcOf(run[k], t).Tentative?) && PcOf(run[j + 1], t).Idle?
    ensures run[i].slots <= run[j + 1].slots && |run[j + 1].slots| == |run[i].slots| + |batch|
    ensures KeepNodes(run[j], run[j + 1], t) ==> BatchEndsAs(run[j + 1].slots, |run[i].slots|, batch, true)
    ensures RemoveNodes(run[j], run[j + 1], t) ==> BatchEndsAs(run[j + 1].slots, |run[i].slots|, batch, false)
    ensures KeepNodes(run[j], run[j + 1], t) || RemoveNodes(run[j], run[j + 1], t)
  {
    hide Inv, Justified, Step, AddNodes, KeepNodes, RemoveNodes;
    RunsKeepInv(run, j);
    StaysTentative(run, i + 1, j, t);
    ChangedPcMoved(run[j], run[j + 1], t);
    TentativeEnds(run[j], run[j + 1], t);
    BatchStandsOrIsGap(run[i], run[i + 1], run[j], run[j + 1], t, batch);
  }

  lemma BatchStandsOrIsGap(before: State, added: State, st: State, st': State, t: ThreadId, batch: seq<bool>)
    requires AddNodes(before, added, t, batch) && st.slots == added.slots && PcOf(st, t) == PcOf(added, t)
    requires KeepNodes(st, st', t) || RemoveNodes(st, st', t)
    ensures before.slots <= st'.slots && |st'.slots| == |before.slots| + |batch|
    ensures KeepNodes(st, st', t) ==> BatchEndsAs(st'.slots, |before.slots|, batch, true)
    ensures RemoveNodes(st, st', t) ==> BatchEndsAs(st'.slots, |before.slots|, batch, false)
  {
    assert added.slots == before.slots + NewSlots(batch);
    if RemoveNodes(st, st', t) {
      assert st'.slots == Vacate(added.slots, |before.slots|);
    }
  }

  // ---- Recording a mutation

  // Of the sessions that were there, those that have been looked at and have run past the node
  // have a warning.
  ghost predicate WarnedSoFar(before: State, st: State, id: NodeId, todo: set<SessionId>) {
    forall s | s in before.warnings && s in before.sessions ::
      && s in st.warnings && s in st.sessions
      && before.sessions[s].lastNumGraphNodes <= st.sessions[s].lastNumGraphNodes
      && (s in todo || (before.sessions[s].lastNumGraphNodes > id ==> st.warnings[s]))
  }

  lemma RecorderSteps(st: State, st': State, t: ThreadId)
    requires Step(st, st', t) && Records(PcOf(st, t))
    ensures (exists s :: LockNext(st, st', t, s)) || Check(st, st', t) || EndRecording(st, st', t)
  {
    hide LiveOps, Version, Versions, MayCall, LockNext, Check, EndRecording;
  }

  lemma RecordingWarns(before: State, st: State, st': State, t: ThreadId, id: NodeId)
    requires Records(PcOf(st, t)) && PcOf(st, t).id == id && WarnedSoFar(before, st, id, PcOf(st, t).todo)
    requires (exists s :: LockNext(st, st', t, s)) || Check(st, st', t)
    ensures Records(PcOf(st', t)) && PcOf(st', t).id == id && WarnedSoFar(before, st', id, PcOf(st', t).todo)
  {
  }

  lemma ChangeBegins(st: State, st': State, t: ThreadId, id: NodeId)
    requires Change(st, st', t, id)
    ensures PcOf(st', t) == Recording(id, st.warnings.Keys) && WarnedSoFar(st, st', id, st.warnings.Keys)
  {
  }

  lemma OthersKeepWarnings(before: State, st: State, st': State, id: NodeId, todo: set<SessionId>)
    requires WarnedSoFar(before, st, id, todo) && GraphLeftAlone(st, st')
    ensures WarnedSoFar(before, st', id, todo)
  {
  }

  lemma {:induction false} WarningsSoFar(run: seq<State>, i: nat, m: nat, t: ThreadId, id: NodeId)
    requires IsRun(run) && i < m < |run| && Change(run[i], run[i + 1], t, id)
    requires forall k | i < k <= m :: Records(PcOf(run[k], t))
    ensures Records(PcOf(run[m], t)) && PcOf(run[m], t).id == id
    ensures WarnedSoFar(run[i], run[m], id, PcOf(run[m], t).todo)
  {
    hide Inv, Justified, Step, WarnedSoFar, Change, LockNext, Check, GraphLeftAlone;
    if i + 1 == m {
      ChangeBegins(run[i], run[m], t, id);
    } else {
      WarningsSoFar(run, i, m - 1, t, id);
      RunsKeepInv(run, m - 1);
      assert Next(run[m - 1], run[m]) && Records(PcOf(run[m], t));
      var u: ThreadId :| Step(run[m - 1], run[m], u);
      if u == t {
        RecorderSteps(run[m - 1], run[m], t);
        assert !EndRecording(run[m - 1], run[m], t);
        RecordingWarns(run[i], run[m - 1], run[m], t, id);
      } else {
        HoldsTheGraph(run[m - 1], t);
        OthersLeaveGraph(run[m - 1], run[m], u, t);
        OthersKeepWarnings(run[i], run[m - 1], run[m], id, PcOf(run[m], t).todo);
      }
    }
  }

  // A mutator changes the node at i and returns at j + 1: by then every session that had run past
  // the node has a warning, which nobody has cleared in between.
  lemma MutationWarns(run: seq<State>, i: nat, j: nat, t: ThreadId, id: NodeId)
    requires IsRun(run) && i < j < |run| - 1 && Change(run[i], run[i + 1], t, id)
    requires (forall k | i < k <= j :: Records(PcOf(run[k], t))) && PcOf(run[j + 1], t).Idle?
    ensures Version(run[i + 1].slots, id) == Version(run[i].slots, id) + 1
    ensures forall other: NodeId | other != id :: Version(run[i + 1].slots, other) == Version(run[i].slots, other)
    ensures forall s | s in run[i].warnings && s in run[i].sessions && run[i].sessions[s].lastNumGraphNodes > id ::
              s in run[j + 1].warnings && run[j + 1].warnings[s]
  {
    hide Inv, Justified, Step, LockNext, Check;
    WarningsSoFar(run, i, j, t, id);
    RunsKeepInv(run, j);
    ChangedPcMoved(run[j], run[j + 1], t);
    RecorderSteps(run[j], run[j + 1], t);
    if !EndRecording(run[j], run[j + 1], t) {
      RecordingGoesOn(run[j], run[j + 1], t);
    }
  }

  lemma RecordingGoesOn(st: State, st': State, t: ThreadId)
    requires (exists s :: LockNext(st, st', t, s)) || Check(st, st', t)
    ensures Records(PcOf(st', t))
  {
  }

  // ---- Creating and deleting sessions

  // A new session has received nothing and has no warning.
  lemma NewSessionIsBlank(st: State, st': State, t: ThreadId, s: SessionId)
    requires Inv(st) && Register(st, st', t, s)
    ensures s in st'.warnings && !st'.warnings[s] && s in st'.sessions && st'.sessions[s].stage.Open?
    ensures st'.sessions[s].lastNumGraphNodes == 0 && st'.sessions[s].sent == [] && st'.sessions[s].copies == map[]
    ensures st'.slots == st.slots && PcOf(st', t).Idle?
  {
    assert KnownPc(st, t) && Sent(st, s);
    assert LiveOps(st.slots, 0, 0) == [];
    assert forall id :: id !in st.sessions[s].copies;
  }

  // A session is loaded into an empty graph, and has received every node of it.
  lemma LoadedSessionHasAll(st: State, st': State, t: ThreadId, s: SessionId, batch: seq<bool>)
    requires FinishLoad(st, st', t, s, batch)
    ensures forall id: NodeId :: !IsLiveOp(st.slots, id)
    ensures s in st'.warnings && !st'.warnings[s] && s in st'.sessions && st'.sessions[s].stage.Open?
    ensures |st'.slots| == |st.slots| + |batch| && st.slots <= st'.slots
    ensures BatchEndsAs(st'.slots, |st.slots|, batch, true)
    ensures st'.sessions[s].lastNumGraphNodes == |st'.slots|
    ensures forall id: NodeId :: id in st'.sessions[s].sent <==> IsLiveOp(st'.slots, id)
    ensures forall id: NodeId | id in st'.sessions[s].sent ::
              id in st'.sessions[s].copies && st'.sessions[s].copies[id] == Version(st'.slots, id)
  {
    hide LiveOps, NewSlots;
    LiveOpsExact(st.slots, 0, |st.slots|);
    LiveOpsExact(st'.slots, 0, |st'.slots|);
    assert st'.slots == st.slots + NewSlots(batch);
    NewSlotsAre(batch);
  }

  lemma NewSlotsAre(batch: seq<bool>)
    ensures |NewSlots(batch)| == |batch| && forall k | 0 <= k < |batch| :: NewSlots(batch)[k] == Occupied(batch[k], 0)
  {
  }

  // A load that fails leaves no session; nodes that it has imported stay, but it imports nothing
  // into a graph that has operations.
  lemma FailedLoadLeavesNothing(st: State, st': State, t: ThreadId, s: SessionId, batch: seq<bool>)
    requires Inv(st) && FailLoad(st, st', t, s, batch)
    ensures s !in st'.sessions && s !in st'.warnings && st'.warnings == st.warnings && st.slots <= st'.slots
    ensures (exists id: NodeId :: IsLiveOp(st.slots, id)) ==> st'.slots == st.slots
  {
    hide LocksHeld, Lifetime, Data, Warned, LiveOps;
    LiveOpsExact(st.slots, 0, |st.slots|);
    assert KnownPc(st, t);
  }

  predicate IsDeleting(pc: Pc, s: SessionId) {
    pc == Inside(DeleteSession(s)) || pc == Freeing(Ending(s)) || pc == Ending(s)
  }

  lemma DeletingGoesOn(st: State, st': State, t: ThreadId, s: SessionId)
    requires Step(st, st', t) && IsDeleting(PcOf(st, t), s)
    ensures IsDeleting(PcOf(st', t), s) || (PcOf(st', t).Idle? && s !in st'.sessions)
  {
    hide MayCall, Creates, Mutates, Collects, Builds;
    DeletesOnly(st, st', t, s);
  }

  lemma DeletesOnly(st: State, st': State, t: ThreadId, s: SessionId)
    requires Step(st, st', t) && IsDeleting(PcOf(st, t), s)
    ensures Deletes(st, st', t)
  {
    hide LiveOps, Version, Versions, MayCall, Deletes, Logged, NewSlots, Vacate;
  }

  lemma {:induction false} StaysDeleting(run: seq<State>, i: nat, j: nat, t: ThreadId, s: SessionId)
    requires IsRun(run) && i <= j < |run| && PcOf(run[i], t) == Inside(DeleteSession(s))
    requires forall k | i <= k <= j :: !PcOf(run[k], t).Idle?
    ensures IsDeleting(PcOf(run[j], t), s)
  {
    hide Inv, Justified, Step;
    if i < j {
      StaysDeleting(run, i, j - 1, t, s);
      RunsKeepInv(run, j - 1);
      ChangedPcMoved(run[j - 1], run[j], t);
      if Step(run[j - 1], run[j], t) {
        DeletingGoesOn(run[j - 1], run[j], t, s);
      }
    }
  }

  // When TF_DeleteSession returns, the session is gone, from the graph's table as well.
  lemma DeletedSessionIsGone(run: seq<State>, i: nat, j: nat, t: ThreadId, s: SessionId)
    requires IsRun(run) && i <= j < |run| - 1 && PcOf(run[i], t) == Inside(DeleteSession(s))
    requires (forall k | i <= k <= j :: !PcOf(run[k], t).Idle?) && PcOf(run[j + 1], t).Idle?
    ensures s !in run[j + 1].sessions && s !in run[j + 1].warnings
  {
    hide Justified, Step, LocksHeld, Lifetime, Data, Warned;
    StaysDeleting(run, i, j, t, s);
    RunsKeepInv(run, j);
    RunsKeepInv(run, j + 1);
    ChangedPcMoved(run[j], run[j + 1], t);
    DeletingGoesOn(run[j], run[j + 1], t, s);
  }
}
