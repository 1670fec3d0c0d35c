/** Whole runs of the replication protocol: convergence, the need for each assumption, and the registry. */
module ReplicationRuns {
  import opened Common
  import opened Messages
  import opened CameraList
  import opened Replication
  import opened ReplicationSteps

  // ---- Convergence ----

  lemma InitInv(s: State)
    requires Init(s)
    ensures Inv(s)
  {
    forall n: Uuid, id: Uuid ensures Converging(s, n, id) {
      assert For(s.pending, n) == [];
    }
  }

  lemma StepInv(s: State, step: Step)
    requires Inv(s) && Enabled(s, step) && Good(s, step)
    ensures Inv(Do(s, step))
  {
    SafeStep(s, step);
    ListsUniqueStep(s, step);
    TransitUniqueStep(s, step);
    UpIsRegisteredStep(s, step);
    forall n: Uuid, id: Uuid ensures Converging(Do(s, step), n, id) {
      ConvergingStep(s, step, n, id);
    }
  }

  lemma {:induction false} RunInv(s: State, steps: seq<Step>)
    requires Inv(s) && Runs(s, steps) && GoodRun(s, steps)
    ensures Inv(Exec(s, steps))
    decreases |steps|
  {
    if steps != [] {
      assert forall a: Assumption :: RunKeeps(a, s, steps) ==> Holds(a, s, steps[0]) && RunKeeps(a, Do(s, steps[0]), steps[1..]);
      StepInv(s, steps[0]);
      RunInv(Do(s, steps[0]), steps[1..]);
    }
  }

  /** Session `k` is up and nothing is on its way to its node. */
  ghost predicate Idle(s: State, k: nat) {
    && k in s.sessions && k in s.chans
    && s.sessions[k].phase.Live? && !s.sessions[k].broken
    && s.sessions[k].wire == [] && s.chans[k] == []
    && For(s.pending, s.sessions[k].node) == []
  }

  /** The node's list is the database's rows for that node: same cameras, same configurations, none twice. */
  ghost predicate Converged(s: State, n: Uuid) {
    && Unique(ListOf(s, n))
    && forall id: Uuid :: Lookup(ListOf(s, n), id) == RowConfig(s.db, n, id)
  }

  lemma IdleConverged(s: State, k: nat)
    requires Inv(s) && Idle(s, k)
    ensures Converged(s, s.sessions[k].node)
  {
    var n := s.sessions[k].node;
    assert n in s.nodes && s.nodes[n] == k;
    assert Log(s, n) + For(s.pending, n) == [];
    forall id: Uuid ensures Lookup(ListOf(s, n), id) == RowConfig(s.db, n, id) {
      assert Converging(s, n, id);
    }
  }

  /** Replica convergence: whatever the interleaving and however the log overlaps the snapshot. */
  lemma Convergence(init: State, steps: seq<Step>, k: nat)
    requires Init(init) && Runs(init, steps) && GoodRun(init, steps)
    requires Idle(Exec(init, steps), k)
    ensures Converged(Exec(init, steps), Exec(init, steps).sessions[k].node)
  {
    InitInv(init);
    RunInv(init, steps);
    IdleConverged(Exec(init, steps), k);
  }

  /** Sessions of one node do not overlap: a new one registers only after the old one's exit block. */
  ghost predicate NoOverlap(s: State) {
    forall k, l | k in s.sessions && l in s.sessions && s.sessions[k].node == s.sessions[l].node
                  && !s.sessions[k].phase.Exited? && !s.sessions[l].phase.Exited? :: k == l
  }

  ghost predicate NeverOverlaps(s: State, steps: seq<Step>)
    requires Runs(s, steps)
    decreases |steps|
  {
    NoOverlap(s) && (steps == [] || NeverOverlaps(Do(s, steps[0]), steps[1..]))
  }

  /** In a run without overlap the exit assumption holds by itself. */
  lemma {:induction false} NoOverlapNoStaleExit(s: State, steps: seq<Step>)
    requires Safe(s) && Runs(s, steps) && NeverOverlaps(s, steps)
    ensures RunKeeps(NoStaleExit, s, steps)
    decreases |steps|
  {
    if steps != [] {
      SafeStep(s, steps[0]);
      NoOverlapNoStaleExit(Do(s, steps[0]), steps[1..]);
    }
  }

  /** Replica convergence for sessions that never overlap. */
  lemma ConvergenceWithoutOverlap(init: State, steps: seq<Step>, k: nat)
    requires Init(init) && Runs(init, steps) && NeverOverlaps(init, steps)
    requires RunKeeps(CommitOrder, init, steps) && RunKeeps(FreshApproval, init, steps) && RunKeeps(QuerySucceeds, init, steps)
    requires Idle(Exec(init, steps), k)
    ensures Converged(Exec(init, steps), Exec(init, steps).sessions[k].node)
  {
    NoOverlapNoStaleExit(init, steps);
    forall a: Assumption ensures RunKeeps(a, init, steps) {
      assert a == CommitOrder || a == FreshApproval || a == QuerySucceeds || a == NoStaleExit;
    }
    Convergence(init, steps, k);
  }

  // ---- Convergence is always within reach ----

  lemma RunCons(s: State, step: Step, rest: seq<Step>)
    requires Enabled(s, step) && Runs(Do(s, step), rest)
    ensures Runs(s, [step] + rest)
    ensures Exec(s, [step] + rest) == Exec(Do(s, step), rest)
    ensures forall a :: RunKeeps(a, s, [step] + rest) <==> Holds(a, s, step) && RunKeeps(a, Do(s, step), rest)
  {
    assert ([step] + rest)[1..] == rest;
  }

  lemma {:induction false} SnapshotExists(db: map<Uuid, Camera>, n: Uuid) returns (snapshot: seq<NodeCameraConfig>)
    requires forall id | id in db :: db[id].id == id
    ensures IsSnapshot(snapshot, db, n)
    decreases |db|
  {
    if db == map[] {
      snapshot := [];
    } else {
      var id :| id in db;
      var rest := SnapshotExists(db - {id}, n);
      if db[id].nodeId == n {
        var c := ConfigOf(db[id]);
        snapshot := rest + [c];
        assert Lookup(rest, id).None?;
        LookupNone(rest, id);
        forall x: Uuid ensures Lookup(snapshot, x) == RowConfig(db, n, x) {
          AppendLookup(rest, c, x);
          assert Lookup(rest, x) == RowConfig(db - {id}, n, x);
        }
      } else {
        snapshot := rest;
        forall x: Uuid ensures Lookup(snapshot, x) == RowConfig(db, n, x) {
          assert Lookup(rest, x) == RowConfig(db - {id}, n, x);
        }
      }
    }
  }

  function PhaseRank(p: Phase): nat {
    match p
    case Registered => 2
    case Fetched(_) => 1
    case _ => 0
  }

  /** The next step towards an idle session. */
  lemma DrainStep(s: State, k: nat) returns (step: Step)
    requires Inv(s) && k in s.sessions && !s.sessions[k].broken && !s.sessions[k].phase.Exited? && !Idle(s, k)
    ensures Enabled(s, step) && Good(s, step)
    ensures var t := Do(s, step);
            && t.db == s.db
            && k in t.sessions && k in t.chans && !t.sessions[k].broken && !t.sessions[k].phase.Exited?
            && t.sessions[k].node == s.sessions[k].node
            && (PhaseRank(t.sessions[k].phase) < PhaseRank(s.sessions[k].phase)
                || (t.sessions[k].phase == s.sessions[k].phase
                    && 3 * |t.pending| + 2 * |t.chans[k]| + |t.sessions[k].wire|
                       < 3 * |s.pending| + 2 * |s.chans[k]| + |s.sessions[k].wire|))
  {
    var ses := s.sessions[k];
    if ses.phase.Registered? {
      var snapshot := SnapshotExists(s.db, ses.node);
      step := Fetch(k, snapshot);
    } else if ses.phase.Fetched? {
      step := SendSnapshot(k);
    } else if s.pending != [] {
      step := Push(0);
    } else if s.chans[k] != [] {
      step := Forward(k);
    } else {
      step := Deliver(k);
    }
  }

  /** From every state of a good run, a connected session can be drained without further commits, and
      then its node agrees with the database. */
  lemma {:induction false} Drain(s: State, k: nat) returns (steps: seq<Step>)
    requires Inv(s) && k in s.sessions && k in s.chans && !s.sessions[k].broken && !s.sessions[k].phase.Exited?
    ensures Runs(s, steps) && GoodRun(s, steps)
    ensures Exec(s, steps).db == s.db
    ensures Idle(Exec(s, steps), k) && Exec(s, steps).sessions[k].node == s.sessions[k].node
    ensures Converged(Exec(s, steps), s.sessions[k].node)
    decreases PhaseRank(s.sessions[k].phase), 3 * |s.pending| + 2 * |s.chans[k]| + |s.sessions[k].wire|
  {
    if Idle(s, k) {
      steps := [];
      IdleConverged(s, k);
    } else {
      var step := DrainStep(s, k);
      StepInv(s, step);
      var rest := Drain(Do(s, step), k);
      RunCons(s, step, rest);
      steps := [step] + rest;
      GoodRunCons(s, step, rest);
    }
  }

  lemma GoodRunCons(s: State, step: Step, rest: seq<Step>)
    requires Enabled(s, step) && Good(s, step) && Runs(Do(s, step), rest) && GoodRun(Do(s, step), rest)
    ensures GoodRun(s, [step] + rest)
  {
    RunCons(s, step, rest);
    forall a: Assumption ensures RunKeeps(a, s, [step] + rest) {
      assert RunKeeps(a, Do(s, step), rest);
      assert Holds(a, s, step);
    }
  }

  // ---- Each assumption is needed ----

  /** The steps lead from `s` to `t`, breaking no assumption but possibly `a`. */
  ghost predicate Leads(a: Assumption, s: State, steps: seq<Step>, t: State) {
    Runs(s, steps) && Exec(s, steps) == t && forall b | b != a :: RunKeeps(b, s, steps)
  }

  lemma LeadsCons(a: Assumption, s: State, step: Step, u: State, rest: seq<Step>, t: State)
    requires Enabled(s, step) && Same(Do(s, step), u) && forall b | b != a :: Holds(b, s, step)
    requires Leads(a, u, rest, t)
    ensures Leads(a, s, [step] + rest, t)
  {
    RunCons(s, step, rest);
  }

  /** Equality, field by field. */
  predicate Same(s: State, t: State) {
    && s.db == t.db && s.pending == t.pending && s.approvals == t.approvals && s.nodes == t.nodes
    && s.chans == t.chans && s.sessions == t.sessions && s.lists == t.lists
  }

  /** A run that breaks assumption `a` and no other, and ends idle but not converged. */
  ghost predicate Refutes(a: Assumption, init: State, steps: seq<Step>, k: nat) {
    && Init(init) && Runs(init, steps)
    && (forall b | b != a :: RunKeeps(b, init, steps))
    && Idle(Exec(init, steps), k)
    && !Converged(Exec(init, steps), Exec(init, steps).sessions[k].node)
  }

  function SampleRow(): Camera {
    Camera(7, 1, "Front Door", "rtsp://192.168.1.1:554/stream", None, true, None, None, None, true)
  }

  function Empty(db: map<Uuid, Camera>): State {
    State(db, [], [], map[], map[], map[], map[])
  }

  /** `s` after session `sid` of node 1 has connected and received an empty list. */
  function Connected(s: State, sid: nat): State {
    s.(nodes := s.nodes[1 := sid], chans := s.chans[sid := []],
       sessions := s.sessions[sid := Session(1, Live, [], false)],
       lists := s.lists[1 := []])
  }

  lemma Connects(a: Assumption, s: State, sid: nat, rest: seq<Step>, t: State) returns (steps: seq<Step>)
    requires Enabled(s, Open(sid, 1))
    requires a.QuerySucceeds? || s.db == map[]
    requires Leads(a, Connected(s, sid), rest, t)
    ensures Leads(a, s, steps, t)
  {
    var s2 := s.(nodes := s.nodes[1 := sid], chans := s.chans[sid := []],
                 sessions := s.sessions[sid := Session(1, Fetched([]), [], false)]);
    steps := ConnectsLast(a, s, sid, s2, rest, t);
    steps := ConnectsFirst(a, s, sid, s2, steps, t);
  }

  lemma ConnectsLast(a: Assumption, s: State, sid: nat, s2: State, rest: seq<Step>, t: State) returns (steps: seq<Step>)
    requires s2 == s.(nodes := s.nodes[1 := sid], chans := s.chans[sid := []],
                      sessions := s.sessions[sid := Session(1, Fetched([]), [], false)])
    requires Leads(a, Connected(s, sid), rest, t)
    ensures Leads(a, s2, steps, t)
  {
    var s3 := s2.(sessions := s.sessions[sid := Session(1, Live, [ConfigSync([])], false)]);
    steps := ConnectsDeliver(a, s, sid, s3, rest, t);
    assert [] + [ConfigSync([])] == [ConfigSync([])];
    LeadsCons(a, s2, SendSnapshot(sid), s3, steps, t);
    steps := [SendSnapshot(sid)] + steps;
  }

  lemma ConnectsDeliver(a: Assumption, s: State, sid: nat, s3: State, rest: seq<Step>, t: State) returns (steps: seq<Step>)
    requires s3 == s.(nodes := s.nodes[1 := sid], chans := s.chans[sid := []],
                      sessions := s.sessions[sid := Session(1, Live, [ConfigSync([])], false)])
    requires Leads(a, Connected(s, sid), rest, t)
    ensures Leads(a, s3, steps, t)
  {
    assert [ConfigSync([])][1..] == [];
    LeadsCons(a, s3, Deliver(sid), Connected(s, sid), rest, t);
    steps := [Deliver(sid)] + rest;
  }

  lemma ConnectsFirst(a: Assumption, s: State, sid: nat, s2: State, rest: seq<Step>, t: State) returns (steps: seq<Step>)
    requires Enabled(s, Open(sid, 1))
    requires a.QuerySucceeds? || s.db == map[]
    requires s2 == s.(nodes := s.nodes[1 := sid], chans := s.chans[sid := []],
                      sessions := s.sessions[sid := Session(1, Fetched([]), [], false)])
    requires Leads(a, s2, rest, t)
    ensures Leads(a, s, steps, t)
  {
    var s1 := s2.(sessions := s.sessions[sid := Session(1, Registered, [], false)]);
    LeadsCons(a, s1, Fetch(sid, []), s2, rest, t);
    LeadsCons(a, s, Open(sid, 1), s1, [Fetch(sid, [])] + rest, t);
    steps := [Open(sid, 1)] + ([Fetch(sid, [])] + rest);
  }

  /** Session 0 forwards and delivers the two messages in its channel. */
  lemma ReceivesTwo(a: Assumption, s: State, m1: WsMessage, m2: WsMessage, t: State) returns (steps: seq<Step>)
    requires 0 in s.sessions && s.sessions[0] == Session(1, Live, [], false)
    requires 0 in s.chans && s.chans[0] == [m1, m2]
    requires Same(t, s.(chans := s.chans[0 := []], lists := s.lists[1 := Apply(Apply(ListOf(s, 1), m1), m2)]))
    ensures Leads(a, s, steps, t)
  {
    var s2 := s.(chans := s.chans[0 := []], sessions := s.sessions[0 := Session(1, Live, [m1, m2], false)]);
    var rest := DeliversTwo(a, s2, m1, m2, t);
    var s1 := s.(chans := s.chans[0 := [m2]], sessions := s.sessions[0 := Session(1, Live, [m1], false)]);
    assert [m1, m2][1..] == [m2] && [m2][1..] == [] && [] + [m1] == [m1] && [m1] + [m2] == [m1, m2];
    LeadsCons(a, s1, Forward(0), s2, rest, t);
    LeadsCons(a, s, Forward(0), s1, [Forward(0)] + rest, t);
    steps := [Forward(0)] + ([Forward(0)] + rest);
  }

  lemma DeliversTwo(a: Assumption, s: State, m1: WsMessage, m2: WsMessage, t: State) returns (steps: seq<Step>)
    requires 0 in s.sessions && s.sessions[0] == Session(1, Live, [m1, m2], false)
    requires Same(t, s.(sessions := s.sessions[0 := Session(1, Live, [], false)],
                        lists := s.lists[1 := Apply(Apply(ListOf(s, 1), m1), m2)]))
    ensures Leads(a, s, steps, t)
  {
    var s3 := s.(sessions := s.sessions[0 := Session(1, Live, [m2], false)], lists := s.lists[1 := Apply(ListOf(s, 1), m1)]);
    assert [m1, m2][1..] == [m2] && [m2][1..] == [];
    LeadsCons(a, s3, Deliver(0), t, [], t);
    LeadsCons(a, s, Deliver(0), s3, [Deliver(0)] + [], t);
    steps := [Deliver(0)] + ([Deliver(0)] + []);
  }

  /** A failed snapshot query sends an empty list and nothing ever fills it. */
  lemma FailedQueryRun() returns (steps: seq<Step>)
    ensures Refutes(QuerySucceeds, Empty(map[7 := SampleRow()]), steps, 0)
  {
    var t := Connected(Empty(map[7 := SampleRow()]), 0);
    steps := Connects(QuerySucceeds, Empty(map[7 := SampleRow()]), 0, [], t);
    assert Lookup(ListOf(t, 1), 7) != RowConfig(t.db, 1, 7);
  }

  /** A camera is created and at once deleted, and the removal is pushed first. */
  lemma OvertakingPushRun() returns (steps: seq<Step>)
    ensures Refutes(CommitOrder, Empty(map[]), steps, 0)
  {
    var s0 := Connected(Empty(map[]), 0);
    var m1, m2 := CameraRemoved(7), CameraAdded(ConfigOf(SampleRow()));
    var s4 := s0.(chans := map[0 := [m1, m2]]);
    var t := s0.(lists := map[1 := [ConfigOf(SampleRow())]]);
    assert Retain([], 7) == [] && [] + [ConfigOf(SampleRow())] == [ConfigOf(SampleRow())];
    var rest := ReceivesTwo(CommitOrder, s4, m1, m2, t);
    rest := OvertakingPushes(s0, m1, m2, s4, rest, t);
    rest := CreateDelete(s0, m1, m2, rest, t);
    steps := Connects(CommitOrder, Empty(map[]), 0, rest, t);
    assert Lookup(ListOf(t, 1), 7) != RowConfig(t.db, 1, 7);
  }

  lemma CreateDelete(s: State, m1: WsMessage, m2: WsMessage, rest: seq<Step>, t: State) returns (steps: seq<Step>)
    requires s.db == map[] && s.pending == [] && m1 == CameraRemoved(7) && m2 == CameraAdded(ConfigOf(SampleRow()))
    requires Leads(CommitOrder, s.(pending := [Pending(1, m2), Pending(1, m1)]), rest, t)
    ensures Leads(CommitOrder, s, steps, t)
  {
    var s1 := s.(db := map[7 := SampleRow()], pending := [Pending(1, m2)]);
    LeadsCons(CommitOrder, s1, DeleteCommit(7), s.(pending := [Pending(1, m2), Pending(1, m1)]), rest, t);
    LeadsCons(CommitOrder, s, CreateCommit(SampleRow()), s1, [DeleteCommit(7)] + rest, t);
    steps := [CreateCommit(SampleRow())] + ([DeleteCommit(7)] + rest);
  }

  lemma OvertakingPushes(s: State, m1: WsMessage, m2: WsMessage, u: State, rest: seq<Step>, t: State) returns (steps: seq<Step>)
    requires s == Connected(Empty(map[]), 0)
    requires u == s.(chans := map[0 := [m1, m2]])
    requires Leads(CommitOrder, u, rest, t)
    ensures Leads(CommitOrder, s.(pending := [Pending(1, m2), Pending(1, m1)]), steps, t)
  {
    var s1 := s.(pending := [Pending(1, m2)], chans := map[0 := [m1]]);
    assert [] + [m1] == [m1] && [m1] + [m2] == [m1, m2];
    LeadsCons(CommitOrder, s1, Push(0), u, rest, t);
    var s2 := s.(pending := [Pending(1, m2), Pending(1, m1)]);
    LeadsCons(CommitOrder, s2, Push(1), s1, [Push(0)] + rest, t);
    steps := [Push(1)] + ([Push(0)] + rest);
  }

  /** An approval reads the table, a camera is created and pushed, and then the approval pushes what it read. */
  lemma StaleApprovalRun() returns (steps: seq<Step>)
    ensures Refutes(FreshApproval, Empty(map[]), steps, 0)
  {
    var m1, m2 := CameraAdded(ConfigOf(SampleRow())), ConfigSync([]);
    var s0 := Connected(Empty(map[]), 0);
    var t := s0.(db := map[7 := SampleRow()]);
    var s4 := t.(chans := map[0 := [m1, m2]]);
    var rest := ReceivesTwo(FreshApproval, s4, m1, m2, t);
    var s2 := t.(approvals := [Approval(1, [])], pending := [Pending(1, m1)]);
    rest := StaleApprovalPushes(s2, m1, s4, rest, t);
    rest := ApproveCreate(s0, s2, rest, t);
    steps := Connects(FreshApproval, Empty(map[]), 0, rest, t);
    assert Lookup(ListOf(t, 1), 7) != RowConfig(t.db, 1, 7);
  }

  lemma ApproveCreate(s: State, s2: State, rest: seq<Step>, t: State) returns (steps: seq<Step>)
    requires s.db == map[] && s.pending == [] && s.approvals == []
    requires s2 == s.(db := map[7 := SampleRow()], approvals := [Approval(1, [])],
                      pending := [Pending(1, CameraAdded(ConfigOf(SampleRow())))])
    requires Leads(FreshApproval, s2, rest, t)
    ensures Leads(FreshApproval, s, steps, t)
  {
    var s1 := s.(approvals := [Approval(1, [])]);
    LeadsCons(FreshApproval, s1, CreateCommit(SampleRow()), s2, rest, t);
    LeadsCons(FreshApproval, s, ApproveFetch(1, []), s1, [CreateCommit(SampleRow())] + rest, t);
    steps := [ApproveFetch(1, [])] + ([CreateCommit(SampleRow())] + rest);
  }

  lemma StaleApprovalPushes(s: State, m: WsMessage, u: State, rest: seq<Step>, t: State) returns (steps: seq<Step>)
    requires s.pending == [Pending(1, m)] && s.approvals == [Approval(1, [])]
    requires s.nodes == map[1 := 0] && s.chans == map[0 := []]
    requires u == s.(pending := [], approvals := [], chans := map[0 := [m, ConfigSync([])]])
    requires Leads(FreshApproval, u, rest, t)
    ensures Leads(FreshApproval, s, steps, t)
  {
    var s1 := s.(pending := [], chans := map[0 := [m]]);
    steps := StaleApprovalLast(s1, m, u, rest, t);
    PushOnly(s, m, s1);
    LeadsCons(FreshApproval, s, Push(0), s1, steps, t);
    steps := [Push(0)] + steps;
  }

  lemma PushOnly(s: State, m: WsMessage, u: State)
    requires s.pending == [Pending(1, m)] && s.nodes == map[1 := 0] && s.chans == map[0 := []]
    requires u == s.(pending := [], chans := map[0 := [m]])
    ensures Same(Do(s, Push(0)), u)
  {
    assert [] + [m] == [m];
  }

  lemma StaleApprovalLast(s: State, m: WsMessage, u: State, rest: seq<Step>, t: State) returns (steps: seq<Step>)
    requires s.approvals == [Approval(1, [])] && s.nodes == map[1 := 0] && s.chans == map[0 := [m]]
    requires u == s.(approvals := [], chans := map[0 := [m, ConfigSync([])]])
    requires Leads(FreshApproval, u, rest, t)
    ensures Leads(FreshApproval, s, steps, t)
  {
    assert [m] + [ConfigSync([])] == [m, ConfigSync([])];
    LeadsCons(FreshApproval, s, ApprovePush(0), u, rest, t);
    steps := [ApprovePush(0)] + rest;
  }

  /** Overlapping sessions: the exit block of the dead session 0 removes the entry of the live session 1,
      and the next commit is dropped. */
  lemma StaleExitRun() returns (steps: seq<Step>)
    ensures Refutes(NoStaleExit, Empty(map[]), steps, 1)
  {
    var s0 := Connected(Empty(map[]), 0);
    var s1 := s0.(sessions := map[0 := Session(1, Live, [], true)]);
    var s2 := Connected(s1, 1);
    var s3 := s2.(nodes := map[], sessions := s2.sessions[0 := Session(1, Exited, [], true)]);
    var t := s3.(db := map[7 := SampleRow()]);
    var rest := DroppedCreate(s3, SampleRow(), t);
    ExitsStale(s2, s3, rest, t);
    rest := Connects(NoStaleExit, s1, 1, [Exit(0)] + rest, t);
    LeadsCons(NoStaleExit, s0, Break(0), s1, rest, t);
    steps := Connects(NoStaleExit, Empty(map[]), 0, [Break(0)] + rest, t);
    assert Lookup(ListOf(t, 1), 7) != RowConfig(t.db, 1, 7);
  }

  lemma ExitsStale(s: State, u: State, rest: seq<Step>, t: State)
    requires 0 in s.sessions && s.sessions[0] == Session(1, Live, [], true) && s.nodes == map[1 := 1]
    requires Same(u, s.(nodes := map[], sessions := s.sessions[0 := Session(1, Exited, [], true)]))
    requires Leads(NoStaleExit, u, rest, t)
    ensures Leads(NoStaleExit, s, [Exit(0)] + rest, t)
  {
    LeadsCons(NoStaleExit, s, Exit(0), u, rest, t);
  }

  lemma DroppedCreate(s: State, row: Camera, t: State) returns (steps: seq<Step>)
    requires s.pending == [] && s.nodes == map[] && row.id !in s.db
    requires Same(t, s.(db := s.db[row.id := row]))
    ensures Leads(NoStaleExit, s, steps, t)
  {
    var s1 := t.(pending := [Pending(row.nodeId, CameraAdded(ConfigOf(row)))]);
    LeadsCons(NoStaleExit, s1, Push(0), t, [], t);
    LeadsCons(NoStaleExit, s, CreateCommit(row), s1, [Push(0)] + [], t);
    steps := [CreateCommit(row)] + ([Push(0)] + []);
  }

  /** None of the four assumptions follows from the others, and convergence fails without each. */
  lemma EachAssumptionNeeded(a: Assumption) returns (init: State, steps: seq<Step>, k: nat)
    ensures Refutes(a, init, steps, k)
  {
    match a
    case QuerySucceeds => init, k := Empty(map[7 := SampleRow()]), 0; steps := FailedQueryRun();
    case CommitOrder => init, k := Empty(map[]), 0; steps := OvertakingPushRun();
    case FreshApproval => init, k := Empty(map[]), 0; steps := StaleApprovalRun();
    case NoStaleExit => init, k := Empty(map[]), 1; steps := StaleExitRun();
  }

  // ---- The registry ----

  /** In every run, overlapping or not, an entry belongs to a session that has not run its exit block. */
  lemma {:induction false} RegistryAlwaysSafe(s: State, steps: seq<Step>)
    requires Safe(s) && Runs(s, steps)
    ensures Safe(Exec(s, steps))
    decreases |steps|
  {
    if steps != [] {
      SafeStep(s, steps[0]);
      RegistryAlwaysSafe(Do(s, steps[0]), steps[1..]);
    }
  }

  /** A step that replaces or removes the entry of node `n`. */
  ghost predicate Displaces(s: State, step: Step, n: Uuid)
    requires Enabled(s, step)
  {
    (step.Open? && step.node == n) || (step.Exit? && s.sessions[step.sid].node == n)
  }

  ghost predicate NeverDisplaced(s: State, steps: seq<Step>, n: Uuid)
    requires Runs(s, steps)
    decreases |steps|
  {
    steps == [] || (!Displaces(s, steps[0], n) && NeverDisplaced(Do(s, steps[0]), steps[1..], n))
  }

  ghost predicate IsRegistered(s: State, k: nat) {
    k in s.sessions && s.sessions[k].node in s.nodes && s.nodes[s.sessions[k].node] == k
  }

  /** Once displaced, a session is never registered again. */
  lemma {:induction false} DisplacedForever(s: State, steps: seq<Step>, k: nat)
    requires k in s.sessions && !IsRegistered(s, k) && Runs(s, steps)
    ensures !IsRegistered(Exec(s, steps), k)
    decreases |steps|
  {
    if steps != [] {
      DisplacedForever(Do(s, steps[0]), steps[1..], k);
    }
  }

  /** A session stays registered exactly as long as no session of its node opens or exits. */
  lemma {:induction false} RegisteredUntilDisplaced(s: State, steps: seq<Step>, k: nat)
    requires IsRegistered(s, k) && Runs(s, steps)
    ensures IsRegistered(Exec(s, steps), k) <==> NeverDisplaced(s, steps, s.sessions[k].node)
    decreases |steps|
  {
    if steps != [] {
      var t := Do(s, steps[0]);
      assert k in t.sessions && t.sessions[k].node == s.sessions[k].node;
      if Displaces(s, steps[0], s.sessions[k].node) {
        DisplacedForever(t, steps[1..], k);
      } else {
        RegisteredUntilDisplaced(t, steps[1..], k);
      }
    }
  }

  /** Every session between its insert and its exit block is the registered one of its node. */
  ghost predicate LiveRegistered(s: State) {
    forall k | k in s.sessions && !s.sessions[k].phase.Exited? :: IsRegistered(s, k)
  }

  ghost predicate AlwaysRegistered(s: State, steps: seq<Step>)
    requires Runs(s, steps)
    decreases |steps|
  {
    LiveRegistered(s) && (steps == [] || AlwaysRegistered(Do(s, steps[0]), steps[1..]))
  }

  lemma LiveRegisteredStep(s: State, step: Step)
    requires LiveRegistered(s) && Enabled(s, step)
    ensures LiveRegistered(Do(s, step)) <==> NoOverlap(Do(s, step))
  {
    var t := Do(s, step);
    if step.Open? && NoOverlap(t) {
      assert IsRegistered(t, step.sid);
    }
  }

  /** Live sessions stay registered all along exactly in the runs whose sessions never overlap. */
  lemma {:induction false} RegisteredIffNoOverlap(s: State, steps: seq<Step>)
    requires LiveRegistered(s) && Runs(s, steps)
    ensures AlwaysRegistered(s, steps) <==> NeverOverlaps(s, steps)
    decreases |steps|
  {
    if steps != [] {
      LiveRegisteredStep(s, steps[0]);
      if LiveRegistered(Do(s, steps[0])) {
        RegisteredIffNoOverlap(Do(s, steps[0]), steps[1..]);
      }
    }
  }

  /** What a lost entry costs: a connected, idle session that is not registered misses the very next commit
      and has nothing under way that could still repair it. */
  lemma UnregisteredMissesCommit(s: State, k: nat, row: Camera)
    requires Safe(s) && Idle(s, k) && s.pending == [] && row.id !in s.db && row.nodeId == s.sessions[k].node
    requires Lookup(ListOf(s, row.nodeId), row.id).None?
    ensures Runs(s, [CreateCommit(row), Push(0)])
    ensures var t := Exec(s, [CreateCommit(row), Push(0)]);
            && k in t.chans
            && (IsRegistered(s, k) <==> t.chans[k] == [CameraAdded(ConfigOf(row))])
            && (row.nodeId !in s.nodes ==> Idle(t, k) && !Converged(t, row.nodeId))
  {
    var s1 := Do(s, CreateCommit(row));
    var s2 := Do(s1, Push(0));
    RunCons(s1, Push(0), []);
    RunCons(s, CreateCommit(row), [Push(0)]);
    assert [CreateCommit(row)] + [Push(0)] == [CreateCommit(row), Push(0)];
    assert [Push(0)] + [] == [Push(0)];
    assert s2.pending == [];
    assert Lookup(ListOf(s2, row.nodeId), row.id) != RowConfig(s2.db, row.nodeId, row.id);
  }
}
