/** Camera allocation (coordinator/src/routes/cameras.rs): capacity check, auto-assignment, creation. */
module Allocation {
  import opened Common
  import opened Messages
  import NodeRegistry

  const MAX_CAMERAS_PER_NODE := 64

  datatype NodeStatus = PendingApproval | Approved | Rejected

  function On(cameras: map<Uuid, Uuid>, n: Uuid): set<Uuid> {
    set c | c in cameras && cameras[c] == n
  }

  /** SELECT COUNT(*) FROM cameras WHERE node_id = n */
  function Load(cameras: map<Uuid, Uuid>, n: Uuid): nat {
    |On(cameras, n)|
  }

  lemma LoadInsert(cameras: map<Uuid, Uuid>, c: Uuid, n: Uuid, m: Uuid)
    requires c !in cameras
    ensures Load(cameras[c := n], m) == Load(cameras, m) + (if m == n then 1 else 0)
  {
    assert On(cameras[c := n], m) == if m == n then On(cameras, m) + {c} else On(cameras, m);
  }

  lemma LoadDelete(cameras: map<Uuid, Uuid>, c: Uuid, m: Uuid)
    ensures Load(cameras, m) == Load(cameras - {c}, m) + (if c in cameras && cameras[c] == m then 1 else 0)
  {
    var rest := On(cameras - {c}, m);
    assert c !in rest;
    assert On(cameras, m) == if c in cameras && cameras[c] == m then rest + {c} else rest;
  }

  // ---- Balanced allocation ----

  function ApprovedNodes(nodes: map<Uuid, NodeStatus>): set<Uuid> {
    set n | n in nodes && nodes[n] == Approved
  }

  /** A possible answer of the auto-assign query: ORDER BY load ASC LIMIT 1, ties broken anyhow. */
  predicate LeastLoaded(approved: set<Uuid>, cameras: map<Uuid, Uuid>, n: Uuid) {
    && n in approved && Load(cameras, n) < MAX_CAMERAS_PER_NODE
    && forall m | m in approved && Load(cameras, m) < MAX_CAMERAS_PER_NODE :: Load(cameras, n) <= Load(cameras, m)
  }

  predicate AllFull(approved: set<Uuid>, cameras: map<Uuid, Uuid>) {
    forall n | n in approved :: Load(cameras, n) >= MAX_CAMERAS_PER_NODE
  }

  ghost predicate Balanced(approved: set<Uuid>, cameras: map<Uuid, Uuid>) {
    forall a, b | a in approved && b in approved :: Load(cameras, a) <= Load(cameras, b) + 1
  }

  /** The free places of the approved nodes, each node's counted from its load up to the cap. */
  function FreePlaces(approved: set<Uuid>, cameras: map<Uuid, Uuid>): set<(Uuid, int)> {
    set n, i | n in approved && Load(cameras, n) <= i < MAX_CAMERAS_PER_NODE :: (n, i)
  }

  lemma {:induction false} LeastLoadedExists(approved: set<Uuid>, cameras: map<Uuid, Uuid>)
    requires !AllFull(approved, cameras)
    ensures exists n :: LeastLoaded(approved, cameras, n)
    decreases |approved|
  {
    var a :| a in approved;
    var rest := approved - {a};
    if AllFull(rest, cameras) {
      assert forall m | m in approved :: m == a || m in rest;
      assert LeastLoaded(approved, cameras, a);
    } else {
      LeastLoadedExists(rest, cameras);
      var b :| LeastLoaded(rest, cameras, b);
      assert forall m | m in approved :: m == a || m in rest;
      assert LeastLoaded(approved, cameras, b) || LeastLoaded(approved, cameras, a);
    }
  }

  datatype CreateError = Forbidden | NotFound | NotApproved | NoCapacity | AtLimit(node: Uuid) | DatabaseError

  class CameraService {
    var nodes: map<Uuid, NodeStatus>
    var cameras: map<Uuid, Uuid>
    const state: NodeRegistry.AppState

    constructor (nodes: map<Uuid, NodeStatus>, state: NodeRegistry.AppState)
      ensures this.nodes == nodes && cameras == map[] && this.state == state
    {
      this.nodes, cameras, this.state := nodes, map[], state;
    }

    /** An explicit node must exist and be approved, its load is not looked at here; without one, the
        least-loaded approved node under the cap is chosen. */
    method ResolveNode(nodeId: Option<Uuid>) returns (r: Result<Uuid, CreateError>)
      ensures nodeId.Some? ==>
                r == if nodeId.value !in nodes then Err(NotFound)
                     else if nodes[nodeId.value] == Approved then Ok(nodeId.value)
                     else Err(NotApproved)
      ensures nodeId.None? && r.Ok? ==> LeastLoaded(ApprovedNodes(nodes), cameras, r.value)
      ensures nodeId.None? && r.Ok? ==>
                && r.value in nodes && nodes[r.value] == Approved && Load(cameras, r.value) < 64
                && forall n | n in nodes && nodes[n] == Approved :: Load(cameras, r.value) <= Load(cameras, n)
      ensures nodeId.None? && r.Err? ==> r.error == NoCapacity
      ensures nodeId.None? ==> (r.Err? <==> AllFull(ApprovedNodes(nodes), cameras))
      ensures nodeId.None? ==> (r.Err? <==> forall n | n in nodes && nodes[n] == Approved :: Load(cameras, n) >= 64)
    {
      match nodeId {
        case Some(n) =>
          if n !in nodes {
            return Err(NotFound);
          }
          r := if nodes[n] == Approved then Ok(n) else Err(NotApproved);
        case None =>
          var approved := ApprovedNodes(nodes);
          if AllFull(approved, cameras) {
            return Err(NoCapacity);
          }
          LeastLoadedExists(approved, cameras);
          var n :| n in approved && LeastLoaded(approved, cameras, n);
          r := Ok(n);
      }
    }

    /** One create request served alone: which error, or which node took the camera and is told. */
    method CreateCamera(operator: bool, nodeId: Option<Uuid>, cfg: NodeCameraConfig, insertOk: bool)
      returns (r: Result<Uuid, CreateError>)
      requires cfg.id !in cameras
      modifies this`cameras, state`chans
      ensures r.Ok? ==>
                && operator && insertOk && r.value in nodes && nodes[r.value] == Approved
                && old(Load(cameras, r.value)) < 64
                && cameras == old(cameras)[cfg.id := r.value]
                && state.chans == NodeRegistry.Pushed(state.nodes, old(state.chans), r.value, CameraAdded(cfg))
                && (if nodeId.Some? then r.value == nodeId.value
                    else LeastLoaded(ApprovedNodes(nodes), old(cameras), r.value))
      ensures r.Err? ==> cameras == old(cameras) && state.chans == old(state.chans)
      ensures r == Err(Forbidden) <==> !operator
      ensures r == Err(NotFound) <==> operator && nodeId.Some? && nodeId.value !in nodes
      ensures r == Err(NotApproved) <==>
                operator && nodeId.Some? && nodeId.value in nodes && nodes[nodeId.value] != Approved
      ensures r == Err(NoCapacity) <==> operator && nodeId.None? && AllFull(ApprovedNodes(nodes), old(cameras))
      ensures r.Err? && r.error.AtLimit? <==>
                operator && nodeId.Some? && nodeId.value in nodes && nodes[nodeId.value] == Approved
                && Load(old(cameras), nodeId.value) >= 64
      ensures r == Err(DatabaseError) ==> !insertOk
      ensures operator && nodeId.None? && insertOk ==>
                SerialStep(ApprovedNodes(nodes), old(cameras), cameras, r.Ok?)
    {
      if !operator {
        return Err(Forbidden);
      }
      r := ResolveNode(nodeId);
      if r.Err? {
        return r;
      }
      if Load(cameras, r.value) >= MAX_CAMERAS_PER_NODE {
        return Err(AtLimit(r.value));
      }
      if !insertOk {
        return Err(DatabaseError);
      }
      cameras := cameras[cfg.id := r.value];
      state.PushToNode(r.value, CameraAdded(cfg));
    }
  }

  /** Auto-assignment keeps the spread at most one, for every tie-break and wherever other cameras are. */
  lemma AssignKeepsBalance(approved: set<Uuid>, cameras: map<Uuid, Uuid>, c: Uuid, n: Uuid)
    requires Balanced(approved, cameras) && c !in cameras && LeastLoaded(approved, cameras, n)
    ensures Balanced(approved, cameras[c := n])
  {
    forall m ensures Load(cameras[c := n], m) == Load(cameras, m) + (if m == n then 1 else 0) {
      LoadInsert(cameras, c, n, m);
    }
    assert forall a | a in approved :: Load(cameras, n) <= Load(cameras, a) || Load(cameras, a) >= MAX_CAMERAS_PER_NODE;
  }

  /** And it takes up exactly one free place. */
  lemma AssignTakesPlace(approved: set<Uuid>, cameras: map<Uuid, Uuid>, c: Uuid, n: Uuid)
    requires c !in cameras && LeastLoaded(approved, cameras, n)
    ensures |FreePlaces(approved, cameras[c := n])| == |FreePlaces(approved, cameras)| - 1
  {
    forall m ensures Load(cameras[c := n], m) == Load(cameras, m) + (if m == n then 1 else 0) {
      LoadInsert(cameras, c, n, m);
    }
    assert FreePlaces(approved, cameras[c := n]) == FreePlaces(approved, cameras) - {(n, Load(cameras, n))};
  }

  /** A create is refused exactly when no free place is left. */
  lemma FullIff(approved: set<Uuid>, cameras: map<Uuid, Uuid>)
    ensures AllFull(approved, cameras) <==> FreePlaces(approved, cameras) == {}
  {
    if n :| n in approved && Load(cameras, n) < MAX_CAMERAS_PER_NODE {
      assert (n, Load(cameras, n)) in FreePlaces(approved, cameras);
    }
  }

  /** An empty table has 64 free places per approved node. */
  lemma {:induction false} EmptyPlaces(approved: set<Uuid>)
    ensures |FreePlaces(approved, map[])| == MAX_CAMERAS_PER_NODE * |approved|
    decreases |approved|
  {
    assert forall n :: On(map[], n) == {};
    if approved == {} {
      assert FreePlaces(approved, map[]) == {};
    } else {
      var a :| a in approved;
      EmptyPlaces(approved - {a});
      var places := PlacesOf(a, MAX_CAMERAS_PER_NODE);
      PlacesSize(a, MAX_CAMERAS_PER_NODE);
      assert FreePlaces(approved, map[]) == FreePlaces(approved - {a}, map[]) + places;
      assert FreePlaces(approved - {a}, map[]) !! places;
    }
  }

  function PlacesOf(a: Uuid, n: nat): set<(Uuid, int)> {
    set i | 0 <= i < n :: (a, i)
  }

  lemma {:induction false} PlacesSize(a: Uuid, n: nat)
    ensures |PlacesOf(a, n)| == n
  {
    if n == 0 {
      assert PlacesOf(a, 0) == {};
    } else {
      PlacesSize(a, n - 1);
      assert PlacesOf(a, n) == PlacesOf(a, n - 1) + {(a, n - 1)};
    }
  }

  /** A run of serial auto-assigned creates, one node per request or a refusal. */
  ghost predicate SerialRun(approved: set<Uuid>, tables: seq<map<Uuid, Uuid>>, accepted: seq<bool>) {
    && |tables| == |accepted| + 1
    && forall i | 0 <= i < |accepted| :: SerialStep(approved, tables[i], tables[i + 1], accepted[i])
  }

  ghost predicate SerialStep(approved: set<Uuid>, cameras: map<Uuid, Uuid>, cameras': map<Uuid, Uuid>, accepted: bool) {
    if accepted then exists c: Uuid, n: Uuid :: c !in cameras && LeastLoaded(approved, cameras, n) && cameras' == cameras[c := n]
    else AllFull(approved, cameras) && cameras' == cameras
  }

  function Count(accepted: seq<bool>): nat {
    if accepted == [] then 0
    else Count(accepted[..|accepted| - 1]) + (if accepted[|accepted| - 1] then 1 else 0)
  }

  lemma SerialStepEffect(approved: set<Uuid>, cameras: map<Uuid, Uuid>, cameras': map<Uuid, Uuid>, accepted: bool)
    requires SerialStep(approved, cameras, cameras', accepted)
    ensures accepted <==> |FreePlaces(approved, cameras)| > 0
    ensures |FreePlaces(approved, cameras')| == |FreePlaces(approved, cameras)| - (if accepted then 1 else 0)
    ensures Balanced(approved, cameras) ==> Balanced(approved, cameras')
  {
    FullIff(approved, cameras);
    if accepted {
      var c: Uuid, n: Uuid :| c !in cameras && LeastLoaded(approved, cameras, n) && cameras' == cameras[c := n];
      AssignTakesPlace(approved, cameras, c, n);
      if Balanced(approved, cameras) {
        AssignKeepsBalance(approved, cameras, c, n);
      }
    }
  }

  /** Acceptances use up the free places one by one, and a spread of at most one stays at most one. */
  lemma {:induction false} PlacesUsed(approved: set<Uuid>, tables: seq<map<Uuid, Uuid>>, accepted: seq<bool>)
    requires SerialRun(approved, tables, accepted)
    ensures |FreePlaces(approved, tables[|accepted|])| == |FreePlaces(approved, tables[0])| - Count(accepted)
    ensures Balanced(approved, tables[0]) ==> Balanced(approved, tables[|accepted|])
    decreases |accepted|
  {
    var k := |accepted|;
    if k > 0 {
      RunPrefix(approved, tables, accepted, k - 1);
      PlacesUsed(approved, tables[..k], accepted[..k - 1]);
      SerialStepEffect(approved, tables[k - 1], tables[k], accepted[k - 1]);
    }
  }

  lemma RunPrefix(approved: set<Uuid>, tables: seq<map<Uuid, Uuid>>, accepted: seq<bool>, n: nat)
    requires SerialRun(approved, tables, accepted) && n <= |accepted|
    ensures SerialRun(approved, tables[..n + 1], accepted[..n])
  {
  }

  /** Over any serial run, from any table: request i is accepted exactly if fewer than the free places of the start
      were accepted before it, and a spread of at most one stays at most one. */
  lemma SerialAllocation(approved: set<Uuid>, tables: seq<map<Uuid, Uuid>>, accepted: seq<bool>)
    requires SerialRun(approved, tables, accepted)
    ensures Count(accepted) <= |FreePlaces(approved, tables[0])|
    ensures forall i | 0 <= i < |accepted| ::
              accepted[i] <==> Count(accepted[..i]) < |FreePlaces(approved, tables[0])|
    ensures Balanced(approved, tables[0]) ==> Balanced(approved, tables[|accepted|])
  {
    PlacesUsed(approved, tables, accepted);
    forall i | 0 <= i < |accepted| ensures accepted[i] <==> Count(accepted[..i]) < |FreePlaces(approved, tables[0])| {
      RunPrefix(approved, tables, accepted, i);
      PlacesUsed(approved, tables[..i + 1], accepted[..i]);
      SerialStepEffect(approved, tables[i], tables[i + 1], accepted[i]);
    }
  }

  /** From empty: balanced all along, and exactly 64 per approved node are accepted. */
  lemma BalancedAllocation(approved: set<Uuid>, tables: seq<map<Uuid, Uuid>>, accepted: seq<bool>)
    requires SerialRun(approved, tables, accepted) && tables[0] == map[]
    ensures Balanced(approved, tables[|accepted|])
    ensures Count(accepted) <= 64 * |approved|
    ensures forall i | 0 <= i < |accepted| :: accepted[i] <==> Count(accepted[..i]) < 64 * |approved|
  {
    SerialAllocation(approved, tables, accepted);
    EmptyPlaces(approved);
    assert forall n :: On(map[], n) == {};
  }
}
