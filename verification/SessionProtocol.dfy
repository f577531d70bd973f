/**
  The C API's graph and its sessions as a step machine: any number of threads create,
  extend and delete sessions of one graph, add nodes, change nodes, and delete the
  graph. A step runs up to the next acquisition of a mutex, or up to the next point
  where other threads can get in between.
 */
module SessionProtocol {
  import opened Options

  type ThreadId = nat
  type SessionId = nat
  type NodeId = nat

  // A node id is vacant once its node has been removed. The version counts changes.
  datatype Slot = Vacant | Occupied(isOp: bool, version: nat)

  datatype Session = Session(
    lastNumGraphNodes: nat,
    sent: seq<NodeId>,            // everything sent by successful Extends, in order
    copies: map<NodeId, nat>,     // the node versions the runtime session has received
    changed: set<NodeId>,         // nodes changed since the warning was last logged
    stage: Stage)

  // How far the client has taken a session: a thread is creating it, it may be used, or a
  // thread is deleting it, before or after it has left the graph's table.
  datatype Stage = Creating(thread: ThreadId) | Open | Closing(thread: ThreadId) | Closed(thread: ThreadId)

  // The calls of the C API, all of which lock the graph first.
  datatype Call =
    | New(s: SessionId)           // TF_NewSession
    | Load(s: SessionId)          // TF_LoadSessionFromSavedModel
    | Add                         // TF_FinishOperation, TF_GraphImportGraphDef
    | Mutate(id: NodeId)          // a mutator that records
    | Extend(s: SessionId)        // ExtendSessionGraphHelper
    | DeleteGraph                 // TF_DeleteGraph
    | DeleteSession(s: SessionId) // TF_DeleteSession

  // Where a thread is. Inside, Tentative, Recording, Checking and Extending are places that
  // hold the graph mutex; Checking, Extending and Sending are places that hold a session mutex.
  datatype Pc =
    | Idle
    | Waiting(call: Call)
    | Inside(call: Call)
    | Tentative(firstNew: nat)
    | Recording(id: NodeId, todo: set<SessionId>)
    | Checking(id: NodeId, todo: set<SessionId>, s: SessionId)
    | Extending(s: SessionId)
    | Sending(s: SessionId, numNodes: nat, ids: seq<NodeId>, versions: map<NodeId, nat>)
    | Freeing(after: Pc)
    | Ending(s: SessionId)

  datatype State = State(
    slots: seq<Slot>,
    graphOwner: Option<ThreadId>,            // who holds TF_Graph::mu
    sessionOwners: map<SessionId, ThreadId>, // who holds TF_Session::mu
    warnings: map<SessionId, bool>,          // TF_Graph::sessions: is the warning non-empty?
    sessions: map<SessionId, Session>,
    deleteRequested: bool,
    closedBy: Option<ThreadId>,              // who has called TF_DeleteGraph
    freer: Option<ThreadId>,                 // who has decided to delete the graph
    freed: nat,                              // how often the graph has been deleted
    pcs: map<ThreadId, Pc>)

  function PcOf(st: State, t: ThreadId): Pc {
    if t in st.pcs then st.pcs[t] else Idle
  }

  function Goto(st: State, t: ThreadId, pc: Pc): State {
    st.(pcs := st.pcs[t := pc])
  }

  // Leaves the critical section of the graph.
  function Leave(st: State, t: ThreadId, pc: Pc): State {
    Goto(st.(graphOwner := None), t, pc)
  }

  // ---- Node ids

  predicate IsLiveOp(slots: seq<Slot>, id: NodeId) {
    id < |slots| && slots[id].Occupied? && slots[id].isOp
  }

  // Ids of the live op nodes in [lo, hi), in increasing order.
  function LiveOps(slots: seq<Slot>, lo: nat, hi: nat): seq<NodeId> {
    if hi <= lo then []
    else LiveOps(slots, lo, hi - 1) + if IsLiveOp(slots, hi - 1) then [hi - 1] else []
  }

  function Version(slots: seq<Slot>, id: NodeId): nat {
    if id < |slots| && slots[id].Occupied? then slots[id].version else 0
  }

  function Versions(slots: seq<Slot>, ids: seq<NodeId>): map<NodeId, nat> {
    map id | id in ids :: Version(slots, id)
  }

  function NewSlots(batch: seq<bool>): seq<Slot> {
    seq(|batch|, i requires 0 <= i < |batch| => Occupied(batch[i], 0))
  }

  function Vacate(slots: seq<Slot>, lo: nat): seq<Slot>
    requires lo <= |slots|
  {
    slots[..lo] + seq(|slots| - lo, _ => Vacant)
  }

  // ---- Starting a call

  function Fresh(t: ThreadId): Session { Session(0, [], map[], {}, Creating(t)) }

  // Calls in which the client hands in the graph itself.
  predicate TakesGraph(pc: Pc) {
    || ((pc.Waiting? || pc.Inside?) && (pc.call.New? || pc.call.Load? || pc.call.Add? || pc.call.Mutate?))
    || pc.Tentative? || pc.Recording? || pc.Checking?
  }

  predicate Extends(pc: Pc, s: SessionId) {
    || pc == Waiting(Extend(s)) || pc == Inside(Extend(s)) || pc == Extending(s)
    || (pc.Sending? && pc.s == s)
  }

  // The client deletes the graph once, after its other calls on the graph are over; it
  // deletes each session once, after its last run.
  ghost predicate MayCall(st: State, call: Call) {
    match call
    case New(s) => st.closedBy.None? && s !in st.sessions
    case Load(s) => st.closedBy.None? && s !in st.sessions
    case Add => st.closedBy.None?
    case Mutate(id) => st.closedBy.None?
    case Extend(s) => s in st.sessions && st.sessions[s].stage.Open?
    case DeleteGraph => st.closedBy.None? && forall t: ThreadId :: !TakesGraph(PcOf(st, t))
    case DeleteSession(s) =>
      && s in st.sessions && st.sessions[s].stage.Open?
      && forall t: ThreadId :: !Extends(PcOf(st, t), s)
  }

  ghost predicate Begin(st: State, st': State, t: ThreadId, call: Call) {
    && PcOf(st, t).Idle? && MayCall(st, call)
    && st' == Goto(match call
                   case New(s) => st.(sessions := st.sessions[s := Fresh(t)])
                   case Load(s) => st.(sessions := st.sessions[s := Fresh(t)])
                   case DeleteGraph => st.(closedBy := Some(t))
                   case DeleteSession(s) => st.(sessions := st.sessions[s := st.sessions[s].(stage := Closing(t))])
                   case _ => st, t, Waiting(call))
  }

  // Locks the graph.
  ghost predicate Enter(st: State, st': State, t: ThreadId) {
    && PcOf(st, t).Waiting? && st.graphOwner.None?
    && st' == Goto(st.(graphOwner := Some(t)), t, Inside(PcOf(st, t).call))
  }

  // ---- TF_NewSession, TF_LoadSessionFromSavedModel

  ghost predicate Register(st: State, st': State, t: ThreadId, s: SessionId) {
    && PcOf(st, t) == Inside(New(s)) && s in st.sessions
    && st' == Leave(st.(warnings := st.warnings[s := false],
                        sessions := st.sessions[s := st.sessions[s].(stage := Open)]), t, Idle)
  }

  // Loading fails on a non-empty graph, or for reasons of its own, the last of them after the
  // nodes have been imported.
  ghost predicate FailLoad(st: State, st': State, t: ThreadId, s: SessionId, batch: seq<bool>) {
    && PcOf(st, t) == Inside(Load(s)) && (batch == [] || LiveOps(st.slots, 0, |st.slots|) == [])
    && st' == Leave(st.(slots := st.slots + NewSlots(batch), sessions := st.sessions - {s}), t, Idle)
  }

  ghost predicate FinishLoad(st: State, st': State, t: ThreadId, s: SessionId, batch: seq<bool>) {
    && PcOf(st, t) == Inside(Load(s)) && LiveOps(st.slots, 0, |st.slots|) == []
    && var slots := st.slots + NewSlots(batch);
       var ids := LiveOps(slots, 0, |slots|);
       var session := Session(|slots|, ids, Versions(slots, ids), {}, Open);
       st' == Leave(st.(slots := slots, warnings := st.warnings[s := false], sessions := st.sessions[s := session]),
                    t, Idle)
  }

  // ---- TF_FinishOperation: a node is added, and removed again if shape inference fails,
  // which leaves a gap in the ids. Imports add several nodes at once.

  ghost predicate AddNodes(st: State, st': State, t: ThreadId, batch: seq<bool>) {
    && PcOf(st, t) == Inside(Add)
    && st' == Goto(st.(slots := st.slots + NewSlots(batch)), t, Tentative(|st.slots|))
  }

  ghost predicate KeepNodes(st: State, st': State, t: ThreadId) {
    PcOf(st, t).Tentative? && st' == Leave(st, t, Idle)
  }

  ghost predicate RemoveNodes(st: State, st': State, t: ThreadId) {
    && PcOf(st, t).Tentative? && PcOf(st, t).firstNew <= |st.slots|
    && st' == Leave(st.(slots := Vacate(st.slots, PcOf(st, t).firstNew)), t, Idle)
  }

  // A duplicate name, or a mutator that changes nothing.
  ghost predicate GiveUp(st: State, st': State, t: ThreadId) {
    && PcOf(st, t).Inside? && (PcOf(st, t).call.Add? || PcOf(st, t).call.Mutate?)
    && st' == Leave(st, t, Idle)
  }

  // ---- A mutator and its RecordMutation loop

  ghost predicate Change(st: State, st': State, t: ThreadId, id: NodeId) {
    && PcOf(st, t) == Inside(Mutate(id)) && IsLiveOp(st.slots, id)
    && st' == Goto(st.(slots := st.slots[id := st.slots[id].(version := st.slots[id].version + 1)],
                       sessions := map s | s in st.sessions ::
                                     st.sessions[s].(changed := st.sessions[s].changed + {id})),
                   t, Recording(id, st.warnings.Keys))
  }

  ghost predicate LockNext(st: State, st': State, t: ThreadId, s: SessionId) {
    && PcOf(st, t).Recording? && s in PcOf(st, t).todo && s !in st.sessionOwners
    && st' == Goto(st.(sessionOwners := st.sessionOwners[s := t]), t,
                   Checking(PcOf(st, t).id, PcOf(st, t).todo, s))
  }

  ghost predicate Check(st: State, st': State, t: ThreadId) {
    && PcOf(st, t).Checking?
    && var Checking(id, todo, s) := PcOf(st, t);
       && s in st.sessions
       && var warned := if st.sessions[s].lastNumGraphNodes > id then st.(warnings := st.warnings[s := true]) else st;
          st' == Goto(warned.(sessionOwners := st.sessionOwners - {s}), t, Recording(id, todo - {s}))
  }

  ghost predicate EndRecording(st: State, st': State, t: ThreadId) {
    PcOf(st, t).Recording? && PcOf(st, t).todo == {} && st' == Leave(st, t, Idle)
  }

  // ---- ExtendSessionGraphHelper

  ghost predicate LockForExtend(st: State, st': State, t: ThreadId, s: SessionId) {
    && PcOf(st, t) == Inside(Extend(s)) && s !in st.sessionOwners
    && st' == Goto(st.(sessionOwners := st.sessionOwners[s := t]), t, Extending(s))
  }

  // Logs and clears the warning.
  function Logged(st: State, s: SessionId): Session
    requires s in st.sessions && s in st.warnings
  {
    if st.warnings[s] then st.sessions[s].(changed := {}) else st.sessions[s]
  }

  // Nothing new, or ValidateGraphHasNoCycle fails.
  ghost predicate SkipExtend(st: State, st': State, t: ThreadId, s: SessionId) {
    && PcOf(st, t) == Extending(s) && s in st.sessions && s in st.warnings
    && st' == Leave(st.(warnings := st.warnings[s := false], sessions := st.sessions[s := Logged(st, s)],
                        sessionOwners := st.sessionOwners - {s}), t, Idle)
  }

  // Copies the nodes added since the last successful Extend and lets go of the graph.
  ghost predicate Snapshot(st: State, st': State, t: ThreadId, s: SessionId) {
    && PcOf(st, t) == Extending(s) && s in st.sessions && s in st.warnings
    && st.sessions[s].lastNumGraphNodes < |st.slots|
    && var ids := LiveOps(st.slots, st.sessions[s].lastNumGraphNodes, |st.slots|);
       st' == Leave(st.(warnings := st.warnings[s := false], sessions := st.sessions[s := Logged(st, s)]), t,
                    Sending(s, |st.slots|, ids, Versions(st.slots, ids)))
  }

  ghost predicate FailExtend(st: State, st': State, t: ThreadId) {
    && PcOf(st, t).Sending?
    && st' == Goto(st.(sessionOwners := st.sessionOwners - {PcOf(st, t).s}), t, Idle)
  }

  ghost predicate FinishExtend(st: State, st': State, t: ThreadId) {
    && PcOf(st, t).Sending?
    && var Sending(s, n, ids, versions) := PcOf(st, t);
       && s in st.sessions
       && var session := st.sessions[s].(lastNumGraphNodes := n, sent := st.sessions[s].sent + ids,
                                         copies := st.sessions[s].copies + versions);
          st' == Goto(st.(sessions := st.sessions[s := session], sessionOwners := st.sessionOwners - {s}), t, Idle)
  }

  // ---- TF_DeleteGraph, TF_DeleteSession

  ghost predicate RequestDelete(st: State, st': State, t: ThreadId) {
    && PcOf(st, t) == Inside(DeleteGraph)
    && var del := st.warnings == map[];
       st' == Leave(st.(deleteRequested := true, freer := if del then Some(t) else st.freer),
                    t, if del then Freeing(Idle) else Idle)
  }

  ghost predicate Unregister(st: State, st': State, t: ThreadId, s: SessionId) {
    && PcOf(st, t) == Inside(DeleteSession(s)) && s in st.sessions
    && var rest := st.warnings - {s};
       var del := st.deleteRequested && rest == map[];
       st' == Leave(st.(warnings := rest, sessions := st.sessions[s := st.sessions[s].(stage := Closed(t))],
                        freer := if del then Some(t) else st.freer),
                    t, if del then Freeing(Ending(s)) else Ending(s))
  }

  ghost predicate FreeGraph(st: State, st': State, t: ThreadId) {
    && PcOf(st, t).Freeing?
    && st' == Goto(st.(freed := st.freed + 1), t, PcOf(st, t).after)
  }

  ghost predicate FreeSession(st: State, st': State, t: ThreadId) {
    && PcOf(st, t).Ending?
    && st' == Goto(st.(sessions := st.sessions - {PcOf(st, t).s}), t, Idle)
  }

  // ---- Runs

  ghost predicate Builds(st: State, st': State, t: ThreadId) {
    || (exists batch :: AddNodes(st, st', t, batch))
    || KeepNodes(st, st', t) || RemoveNodes(st, st', t) || GiveUp(st, st', t)
  }

  ghost predicate Creates(st: State, st': State, t: ThreadId) {
    || (exists s :: Register(st, st', t, s))
    || (exists s, batch :: FailLoad(st, st', t, s, batch))
    || (exists s, batch :: FinishLoad(st, st', t, s, batch))
  }

  ghost predicate Mutates(st: State, st': State, t: ThreadId) {
    || (exists id :: Change(st, st', t, id))
    || (exists s :: LockNext(st, st', t, s))
    || Check(st, st', t) || EndRecording(st, st', t)
  }

  ghost predicate Collects(st: State, st': State, t: ThreadId) {
    || (exists s :: LockForExtend(st, st', t, s))
    || (exists s :: SkipExtend(st, st', t, s))
    || (exists s :: Snapshot(st, st', t, s))
    || FailExtend(st, st', t)
  }

  ghost predicate Deletes(st: State, st': State, t: ThreadId) {
    || RequestDelete(st, st', t)
    || (exists s :: Unregister(st, st', t, s))
    || FreeGraph(st, st', t) || FreeSession(st, st', t)
  }

  // A running call goes on.
  ghost predicate Proceed(st: State, st': State, t: ThreadId) {
    || Enter(st, st', t) || Builds(st, st', t) || Creates(st, st', t) || Mutates(st, st', t)
    || Collects(st, st', t) || FinishExtend(st, st', t) || Deletes(st, st', t)
  }

  ghost predicate Step(st: State, st': State, t: ThreadId) {
    Proceed(st, st', t) || exists call :: Begin(st, st', t, call)
  }

  ghost predicate Next(st: State, st': State) {
    exists t: ThreadId :: Step(st, st', t)
  }

  // A new graph has its source and sink nodes, which are no ops.
  predicate Init(st: State) {
    st == State([Occupied(false, 0), Occupied(false, 0)], None, map[], map[], map[], false, None, None, 0, map[])
  }

  ghost predicate IsRun(run: seq<State>) {
    && run != [] && Init(run[0])
    && forall i | 0 <= i < |run| - 1 :: Next(run[i], run[i + 1])
  }
}
