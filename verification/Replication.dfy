/**
 * Camera-config replication: database commits and pushes at the coordinator, one session per node
 * connection, and the node's own list, interleaved one step at a time.
 *
 * `Enabled` and `Do` allow everything the code can do, including overlapping sessions, a failed
 * snapshot query, pushes that overtake each other and a stale approval snapshot. `Good` names the
 * assumptions under which the node's list converges; each one is shown to be needed by a run.
 */
module Replication {
  import opened Common
  import opened Messages
  import opened CameraList
  import opened NodeRegistry
  import opened ReplayLog

  datatype Phase = Registered | Fetched(snapshot: seq<NodeCameraConfig>) | Live | Exited

  /** One run of `handle_socket`. `wire` holds the frames its sink accepted and the node has not read;
      `broken` says the node's end of the connection is gone. */
  datatype Session = Session(node: Uuid, phase: Phase, wire: seq<WsMessage>, broken: bool)

  /** A handler between its commit and its push. */
  datatype Pending = Pending(node: Uuid, msg: WsMessage)

  /** An approval between its fetch and its push. */
  datatype Approval = Approval(node: Uuid, snapshot: seq<NodeCameraConfig>)

  datatype State = State(
    db: map<Uuid, Camera>,
    pending: seq<Pending>,
    approvals: seq<Approval>,
    nodes: map<Uuid, nat>,
    chans: map<nat, seq<WsMessage>>,
    sessions: map<nat, Session>,
    lists: map<Uuid, seq<NodeCameraConfig>>)

  datatype Step =
    | CreateCommit(row: Camera)
    | UpdateCommit(id: Uuid, patch: UpdateCamera)
    | DeleteCommit(id: Uuid)
    | Push(index: nat)
    | ApproveFetch(node: Uuid, snapshot: seq<NodeCameraConfig>)
    | ApprovePush(index: nat)
    | Notify(node: Uuid, msg: WsMessage)
    | Open(sid: nat, node: Uuid)
    | Fetch(sid: nat, snapshot: seq<NodeCameraConfig>)
    | SendSnapshot(sid: nat)
    | Forward(sid: nat)
    | Deliver(sid: nat)
    | Break(sid: nat)
    | Exit(sid: nat)
    | NodeRestart(node: Uuid)

  // ---- The data the protocol replicates ----

  /** What the database says about camera `id` of node `n`. */
  function RowConfig(db: map<Uuid, Camera>, n: Uuid, id: Uuid): CamState {
    if id in db && db[id].nodeId == n then Some(ConfigOf(db[id])) else None
  }

  function ListOf(s: State, n: Uuid): seq<NodeCameraConfig> {
    if n in s.lists then s.lists[n] else []
  }

  /** A result of SELECT ... FROM cameras WHERE node_id = n, in whatever order the rows come. */
  ghost predicate IsSnapshot(snapshot: seq<NodeCameraConfig>, db: map<Uuid, Camera>, n: Uuid) {
    && Unique(snapshot)
    && forall id: Uuid :: Lookup(snapshot, id) == RowConfig(db, n, id)
  }

  function RemoveAt<T>(s: seq<T>, i: nat): seq<T>
    requires i < |s|
  {
    s[..i] + s[i + 1..]
  }

  /** The messages still to be pushed to node `n`, oldest commit first. */
  function For(pending: seq<Pending>, n: Uuid): seq<WsMessage> {
    if pending == [] then []
    else (if pending[0].node == n then [pending[0].msg] else []) + For(pending[1..], n)
  }

  // ---- Steps ----

  ghost predicate Enabled(s: State, step: Step) {
    match step
    case CreateCommit(row) => row.id !in s.db
    case UpdateCommit(id, _) => id in s.db
    case DeleteCommit(id) => id in s.db
    case Push(i) => i < |s.pending|
    case ApproveFetch(n, snapshot) => IsSnapshot(snapshot, s.db, n) || snapshot == []
    case ApprovePush(i) => i < |s.approvals|
    case Notify(_, msg) => msg.DeleteRecording? || msg.Pong?
    case Open(sid, n) =>
      && sid !in s.sessions && sid !in s.chans
      && forall k | k in s.sessions && s.sessions[k].node == n :: s.sessions[k].broken
    case Fetch(sid, snapshot) =>
      && sid in s.sessions && s.sessions[sid].phase.Registered?
      && (IsSnapshot(snapshot, s.db, s.sessions[sid].node) || snapshot == [])
    case SendSnapshot(sid) => sid in s.sessions && s.sessions[sid].phase.Fetched?
    case Forward(sid) =>
      && sid in s.sessions && s.sessions[sid].phase.Live?
      && sid in s.chans && s.chans[sid] != []
    case Deliver(sid) => sid in s.sessions && !s.sessions[sid].broken && s.sessions[sid].wire != []
    case Break(sid) => sid in s.sessions
    case Exit(sid) => sid in s.sessions && s.sessions[sid].phase.Live?
    case NodeRestart(n) => forall k | k in s.sessions && s.sessions[k].node == n :: s.sessions[k].broken
  }

  function Queue(s: State, n: Uuid, msg: WsMessage): State {
    s.(pending := s.pending + [Pending(n, msg)])
  }

  /** Frames put on a dead connection are lost. */
  function OnWire(ses: Session, msg: WsMessage): Session {
    if ses.broken then ses else ses.(wire := ses.wire + [msg])
  }

  ghost function Do(s: State, step: Step): State
    requires Enabled(s, step)
  {
    match step
    case CreateCommit(row) =>
      Queue(s.(db := s.db[row.id := row]), row.nodeId, CameraAdded(ConfigOf(row)))
    case UpdateCommit(id, patch) =>
      var row := Patched(s.db[id], patch);
      Queue(s.(db := s.db[id := row]), row.nodeId, CameraUpdated(ConfigOf(row)))
    case DeleteCommit(id) =>
      Queue(s.(db := s.db - {id}), s.db[id].nodeId, CameraRemoved(id))
    case Push(i) =>
      var p := s.pending[i];
      s.(pending := RemoveAt(s.pending, i), chans := Pushed(s.nodes, s.chans, p.node, p.msg))
    case ApproveFetch(n, snapshot) =>
      s.(approvals := s.approvals + [Approval(n, snapshot)])
    case ApprovePush(i) =>
      var a := s.approvals[i];
      s.(approvals := RemoveAt(s.approvals, i), chans := Pushed(s.nodes, s.chans, a.node, ConfigSync(a.snapshot)))
    case Notify(n, msg) =>
      s.(chans := Pushed(s.nodes, s.chans, n, msg))
    case Open(sid, n) =>
      s.(nodes := s.nodes[n := sid], chans := s.chans[sid := []],
         sessions := s.sessions[sid := Session(n, Registered, [], false)])
    case Fetch(sid, snapshot) =>
      s.(sessions := s.sessions[sid := s.sessions[sid].(phase := Fetched(snapshot))])
    case SendSnapshot(sid) =>
      var ses := s.sessions[sid];
      s.(sessions := s.sessions[sid := OnWire(ses, ConfigSync(ses.phase.snapshot)).(phase := Live)])
    case Forward(sid) =>
      s.(chans := s.chans[sid := s.chans[sid][1..]],
         sessions := s.sessions[sid := OnWire(s.sessions[sid], s.chans[sid][0])])
    case Deliver(sid) =>
      var ses := s.sessions[sid];
      s.(sessions := s.sessions[sid := ses.(wire := ses.wire[1..])],
         lists := s.lists[ses.node := Apply(ListOf(s, ses.node), ses.wire[0])])
    case Break(sid) =>
      s.(sessions := s.sessions[sid := s.sessions[sid].(broken := true)])
    case Exit(sid) =>
      s.(nodes := s.nodes - {s.sessions[sid].node},
         sessions := s.sessions[sid := s.sessions[sid].(phase := Exited)])
    case NodeRestart(n) =>
      s.(lists := s.lists[n := []])
  }

  /** The assumptions of the convergence theorem. */
  datatype Assumption =
    | CommitOrder    // a push overtakes only pushes to its node with which it commutes
    | FreshApproval  // an approval's rows with the pending pushes replayed are current when it pushes them
    | QuerySucceeds  // the snapshot query of a new session succeeds
    | NoStaleExit    // an exit block runs while no other session of the node is registered

  /** If the approval reaches a session at all, what is still to be pushed brings its rows up to date. */
  ghost predicate CatchesUp(s: State, a: Approval) {
    Tracked(s, a.node) ==>
      forall id: Uuid :: Fold(Lookup(a.snapshot, id), For(s.pending, a.node), id) == RowConfig(s.db, a.node, id)
  }

  /** What each assumption asks of a step, checkable before the step. */
  ghost predicate Holds(a: Assumption, s: State, step: Step)
    requires Enabled(s, step)
  {
    match a
    case CommitOrder =>
      step.Push? ==> forall j | 0 <= j < step.index && s.pending[j].node == s.pending[step.index].node ::
                       Harmless(s.pending[j].msg, s.pending[step.index].msg)
    case FreshApproval =>
      step.ApprovePush? ==> CatchesUp(s, s.approvals[step.index])
    case QuerySucceeds =>
      step.Fetch? ==> IsSnapshot(step.snapshot, s.db, s.sessions[step.sid].node)
    case NoStaleExit =>
      step.Exit? ==> var n := s.sessions[step.sid].node; n !in s.nodes || s.nodes[n] == step.sid
  }

  ghost predicate Good(s: State, step: Step)
    requires Enabled(s, step)
  {
    Holds(CommitOrder, s, step) && Holds(FreshApproval, s, step) && Holds(QuerySucceeds, s, step) && Holds(NoStaleExit, s, step)
  }

  // ---- Runs ----

  ghost predicate Init(s: State) {
    && s.pending == [] && s.approvals == [] && s.nodes == map[] && s.chans == map[]
    && s.sessions == map[] && s.lists == map[]
    && forall id | id in s.db :: s.db[id].id == id
  }

  ghost predicate Runs(s: State, steps: seq<Step>)
    decreases |steps|
  {
    steps == [] || (Enabled(s, steps[0]) && Runs(Do(s, steps[0]), steps[1..]))
  }

  ghost function Exec(s: State, steps: seq<Step>): State
    requires Runs(s, steps)
    decreases |steps|
  {
    if steps == [] then s else Exec(Do(s, steps[0]), steps[1..])
  }

  ghost predicate RunKeeps(a: Assumption, s: State, steps: seq<Step>)
    requires Runs(s, steps)
    decreases |steps|
  {
    steps == [] || (Holds(a, s, steps[0]) && RunKeeps(a, Do(s, steps[0]), steps[1..]))
  }

  ghost predicate GoodRun(s: State, steps: seq<Step>)
    requires Runs(s, steps)
  {
    forall a :: RunKeeps(a, s, steps)
  }

  // ---- Invariants ----

  /** Rows are stored under their own id and only deltas wait to be pushed. */
  ghost predicate WellFormed(s: State) {
    && (forall id | id in s.db :: s.db[id].id == id)
    && (forall k | 0 <= k < |s.pending| :: Subject(s.pending[k].msg).Some?)
  }

  /** A registry entry always belongs to a session of that node that has not run its exit block. */
  ghost predicate RegistrySafe(s: State) {
    forall n | n in s.nodes ::
      && s.nodes[n] in s.sessions
      && s.sessions[s.nodes[n]].node == n
      && !s.sessions[s.nodes[n]].phase.Exited?
  }

  /** Every session has its channel and sends nothing before its snapshot. */
  ghost predicate SessionsSafe(s: State) {
    && s.sessions.Keys == s.chans.Keys
    && forall k | k in s.sessions ::
         (s.sessions[k].phase.Registered? || s.sessions[k].phase.Fetched? ==> s.sessions[k].wire == [])
  }

  /** A node has one connection up at a time. */
  ghost predicate OneUp(s: State) {
    forall k, l | k in s.sessions && l in s.sessions && s.sessions[k].node == s.sessions[l].node
                  && !s.sessions[k].broken && !s.sessions[l].broken :: k == l
  }

  /** Holds in every state the code can reach, with or without the assumptions. */
  ghost predicate Safe(s: State) {
    WellFormed(s) && RegistrySafe(s) && SessionsSafe(s) && OneUp(s)
  }

  ghost predicate SyncsUnique(ms: seq<WsMessage>) {
    forall k | 0 <= k < |ms| && ms[k].ConfigSync? :: Unique(ms[k].cameras)
  }

  /** The full lists held by nodes, approvals and sessions name no camera twice. */
  ghost predicate ListsUnique(s: State) {
    && (forall n | n in s.lists :: Unique(s.lists[n]))
    && (forall k | 0 <= k < |s.approvals| :: Unique(s.approvals[k].snapshot))
    && (forall k | k in s.sessions && s.sessions[k].phase.Fetched? :: Unique(s.sessions[k].phase.snapshot))
  }

  /** Nor do the full lists under way. */
  ghost predicate TransitUnique(s: State) {
    && (forall k | k in s.chans :: SyncsUnique(s.chans[k]))
    && (forall k | k in s.sessions :: SyncsUnique(s.sessions[k].wire))
  }

  ghost predicate NoDuplicates(s: State) {
    ListsUnique(s) && TransitUnique(s)
  }

  /** Under the assumptions a connection that is up is the registered one, or none is once the coordinator has
      left it. */
  ghost predicate UpIsRegistered(s: State) {
    forall k | k in s.sessions && !s.sessions[k].broken ::
      if s.sessions[k].node in s.nodes then s.nodes[s.sessions[k].node] == k else s.sessions[k].phase.Exited?
  }

  /** The registered session of `n` still decides what the node's list becomes. */
  ghost predicate Tracked(s: State, n: Uuid) {
    && n in s.nodes && s.nodes[n] in s.sessions && s.nodes[n] in s.chans
    && (s.sessions[s.nodes[n]].phase.Registered? || !s.sessions[s.nodes[n]].broken)
    && !s.sessions[s.nodes[n]].phase.Exited?
  }

  /** The state from which the registered session's messages are replayed: the rows its snapshot query is
      going to return, the rows it has returned, or what the node holds already. */
  ghost function Start(s: State, n: Uuid, id: Uuid): CamState
    requires Tracked(s, n)
  {
    var ses := s.sessions[s.nodes[n]];
    match ses.phase
    case Registered => RowConfig(s.db, n, id)
    case Fetched(snapshot) => Lookup(snapshot, id)
    case Live => Lookup(ListOf(s, n), id)
  }

  /** The messages the registered session has accepted and the node has not applied. */
  ghost function Log(s: State, n: Uuid): seq<WsMessage>
    requires Tracked(s, n)
  {
    s.sessions[s.nodes[n]].wire + s.chans[s.nodes[n]]
  }

  /** Replaying the pending messages onto a row changes nothing, so they may be dropped. */
  ghost predicate Settled(s: State, n: Uuid, id: Uuid) {
    Fold(RowConfig(s.db, n, id), For(s.pending, n), id) == RowConfig(s.db, n, id)
  }

  /** What the registered session has under way, and then what is pending, ends in the row. */
  ghost predicate Following(s: State, n: Uuid, id: Uuid) {
    Tracked(s, n) ==> Fold(Start(s, n, id), Log(s, n) + For(s.pending, n), id) == RowConfig(s.db, n, id)
  }

  /** The convergence invariant for one camera of one node. */
  ghost predicate Converging(s: State, n: Uuid, id: Uuid) {
    Settled(s, n, id) && Following(s, n, id)
  }

  ghost predicate Inv(s: State) {
    && Safe(s) && NoDuplicates(s) && UpIsRegistered(s)
    && forall n: Uuid, id: Uuid :: Converging(s, n, id)
  }
}
