/**
  What every step of the graph/session protocol keeps: the owner fields agree with where
  the threads are, what sessions have received is exactly what the graph held, changes
  are noticed or about to be, and who may delete the graph.
 */
module SessionInvariants {
  import opened Options
  import opened SessionProtocol

  predicate HoldsGraph(pc: Pc) {
    pc.Inside? || pc.Tentative? || pc.Recording? || pc.Checking? || pc.Extending?
  }

  function HeldSession(pc: Pc): Option<SessionId> {
    if pc.Checking? || pc.Extending? || pc.Sending? then Some(pc.s) else None
  }

  // The owner fields tell who is inside which critical section.
  ghost predicate LocksHeld(st: State) {
    && (forall t: ThreadId :: HoldsGraph(PcOf(st, t)) <==> st.graphOwner == Some(t))
    && (forall t: ThreadId, s :: HeldSession(PcOf(st, t)) == Some(s) <==> s in st.sessionOwners && st.sessionOwners[s] == t)
  }

  // ---- Which sessions a call works on

  ghost predicate InStage(st: State, s: SessionId, stage: Stage) {
    s in st.sessions && st.sessions[s].stage == stage
  }

  ghost predicate KnownCall(st: State, t: ThreadId, call: Call) {
    match call
    case New(s) => InStage(st, s, Creating(t))
    case Load(s) => InStage(st, s, Creating(t))
    case Extend(s) => InStage(st, s, Open)
    case DeleteSession(s) => InStage(st, s, Closing(t))
    case _ => true
  }

  ghost predicate KnownPc(st: State, t: ThreadId) {
    match PcOf(st, t)
    case Idle => true
    case Waiting(call) => KnownCall(st, t, call)
    case Inside(call) => KnownCall(st, t, call)
    case Tentative(_) => true
    case Recording(_, todo) => todo <= st.warnings.Keys
    case Checking(_, todo, s) => todo <= st.warnings.Keys && s in todo
    case Extending(s) => InStage(st, s, Open)
    case Sending(s, _, _, _) => InStage(st, s, Open)
    case Freeing(after) => after.Idle? || (after.Ending? && InStage(st, after.s, Closed(t)))
    case Ending(s) => InStage(st, s, Closed(t))
  }

  // The graph's table holds the sessions from their creation until they are deleted.
  ghost predicate Registered(st: State) {
    && st.warnings.Keys <= st.sessions.Keys
    && (forall s | s in st.sessions :: s in st.warnings <==> st.sessions[s].stage.Open? || st.sessions[s].stage.Closing?)
  }

  ghost predicate Known(st: State) {
    Registered(st) && forall t: ThreadId :: KnownPc(st, t)
  }

  // ---- Node ids

  lemma {:induction false} LiveOpsSame(slots: seq<Slot>, slots': seq<Slot>, lo: nat, hi: nat)
    requires forall id | lo <= id < hi :: IsLiveOp(slots, id) <==> IsLiveOp(slots', id)
    ensures LiveOps(slots, lo, hi) == LiveOps(slots', lo, hi)
  {
    if lo < hi {
      LiveOpsSame(slots, slots', lo, hi - 1);
    }
  }

  lemma {:induction false} LiveOpsSplit(slots: seq<Slot>, lo: nat, mid: nat, hi: nat)
    requires lo <= mid <= hi
    ensures LiveOps(slots, lo, hi) == LiveOps(slots, lo, mid) + LiveOps(slots, mid, hi)
  {
    if mid < hi {
      LiveOpsSplit(slots, lo, mid, hi - 1);
    }
  }

  // Exactly the live op nodes, in increasing order.
  lemma {:induction false} LiveOpsExact(slots: seq<Slot>, lo: nat, hi: nat)
    ensures forall id :: id in LiveOps(slots, lo, hi) <==> lo <= id < hi && IsLiveOp(slots, id)
    ensures forall i, j | 0 <= i < j < |LiveOps(slots, lo, hi)| :: LiveOps(slots, lo, hi)[i] < LiveOps(slots, lo, hi)[j]
  {
    if lo < hi {
      LiveOpsExact(slots, lo, hi - 1);
      var front := LiveOps(slots, lo, hi - 1);
      assert forall i | 0 <= i < |front| :: front[i] in front;
    }
  }

  // The loop of ExtendSessionGraphHelper that fills in the graph to send.
  method CollectNewNodes(slots: seq<Slot>, lastNumGraphNodes: nat) returns (ids: seq<NodeId>)
    ensures ids == LiveOps(slots, lastNumGraphNodes, |slots|)
    // Exactly the ops with these ids that have not been removed, in order.
    ensures forall id: NodeId :: id in ids <==> lastNumGraphNodes <= id < |slots| && slots[id].Occupied? && slots[id].isOp
    ensures forall i, j | 0 <= i < j < |ids| :: ids[i] < ids[j]
  {
    LiveOpsExact(slots, lastNumGraphNodes, |slots|);
    ids := [];
    var id := lastNumGraphNodes;
    while id < |slots|
      invariant lastNumGraphNodes <= id && (id <= |slots| || id == lastNumGraphNodes)
      invariant ids == LiveOps(slots, lastNumGraphNodes, id)
    {
      if slots[id].Occupied? && slots[id].isOp {
        ids := ids + [id];
      }
      id := id + 1;
    }
  }

  // ---- What sessions have been sent

  // Ids below this one belong to finished additions.
  ghost function Base(st: State): nat {
    if st.graphOwner.Some? && PcOf(st, st.graphOwner.value).Tentative?
    then PcOf(st, st.graphOwner.value).firstNew else |st.slots|
  }

  ghost predicate CopiesOf(slots: seq<Slot>, ids: seq<NodeId>, copies: map<NodeId, nat>) {
    && (forall id :: id in copies <==> id in ids)
    && (forall id | id in copies :: copies[id] <= Version(slots, id))
  }

  ghost predicate Sent(st: State, s: SessionId)
    requires s in st.sessions
  {
    var session := st.sessions[s];
    && session.lastNumGraphNodes <= Base(st)
    && session.sent == LiveOps(st.slots, 0, session.lastNumGraphNodes)
    && CopiesOf(st.slots, session.sent, session.copies)
    && (session.stage.Creating? ==> session.lastNumGraphNodes == 0)
  }

  ghost predicate SendingPc(st: State, t: ThreadId) {
    var pc := PcOf(st, t);
    pc.Sending? ==>
      && pc.s in st.sessions
      && st.sessions[pc.s].lastNumGraphNodes <= pc.numNodes <= Base(st)
      && pc.ids == LiveOps(st.slots, st.sessions[pc.s].lastNumGraphNodes, pc.numNodes)
      && CopiesOf(st.slots, pc.ids, pc.versions)
  }

  ghost predicate Data(st: State) {
    && Base(st) <= |st.slots|
    && (forall s | s in st.sessions :: Sent(st, s))
    && (forall t: ThreadId :: SendingPc(st, t))
  }

  // ---- Which changes have been noticed

  // A mutator that has changed node id has yet to look at session s.
  ghost predicate Pending(st: State, s: SessionId, id: NodeId) {
    && st.graphOwner.Some?
    && var pc := PcOf(st, st.graphOwner.value);
       (pc.Recording? || pc.Checking?) && pc.id == id && s in pc.todo
  }

  // The session runs an outdated copy of a node that was changed since the last warning.
  ghost predicate Outdated(st: State, s: SessionId, id: NodeId)
    requires s in st.sessions
  {
    && id in st.sessions[s].changed && id in st.sessions[s].copies
    && st.sessions[s].copies[id] < Version(st.slots, id)
  }

  ghost predicate Noticed(st: State, s: SessionId)
    requires s in st.sessions && s in st.warnings
  {
    forall id | Outdated(st, s, id) && !st.warnings[s] :: Pending(st, s, id)
  }

  // What is being sent is up to date, or about to be noticed.
  ghost predicate FreshPc(st: State, t: ThreadId) {
    var pc := PcOf(st, t);
    pc.Sending? && pc.s in st.sessions ==>
      forall id | id in pc.versions && pc.versions[id] < Version(st.slots, id) ::
        id in st.sessions[pc.s].changed && Pending(st, pc.s, id)
  }

  ghost predicate Warned(st: State) {
    && (forall s | s in st.sessions && s in st.warnings :: Noticed(st, s))
    && (forall t: ThreadId :: FreshPc(st, t))
  }

  // ---- The end of the graph

  ghost predicate EndPc(st: State, t: ThreadId) {
    var pc := PcOf(st, t);
    && (TakesGraph(pc) ==> st.closedBy.None?)
    && (pc == Waiting(DeleteGraph) || pc == Inside(DeleteGraph) ==> st.closedBy == Some(t) && !st.deleteRequested)
    && (pc.Freeing? ==> st.freer == Some(t) && st.freed == 0)
  }

  // Somebody frees the graph, once, when the last session is gone after the request.
  ghost predicate FreedWhenDue(st: State) {
    && (st.deleteRequested ==> st.closedBy.Some?)
    && (st.freer.Some? <==> st.deleteRequested && st.warnings == map[])
    && (if st.freer.None? then st.freed == 0
        else st.freed == (if PcOf(st, st.freer.value).Freeing? then 0 else 1))
  }

  ghost predicate Lifetime(st: State) {
    FreedWhenDue(st) && forall t: ThreadId :: EndPc(st, t)
  }

  ghost predicate Inv(st: State) {
    LocksHeld(st) && Known(st) && Lifetime(st) && Data(st) && Warned(st)
  }
}
