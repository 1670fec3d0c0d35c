/** What each step of the replication protocol keeps: the consistency of registry and sessions unconditionally, and
    under the assumptions the convergence of every camera, with the exact condition of the doubtful steps. */
module ReplicationSteps {
  import opened Common
  import opened Messages
  import opened CameraList
  import opened NodeRegistry
  import opened ReplayLog
  import opened Strings
  import opened Replication

  lemma WellFormedStep(s: State, step: Step)
    requires Safe(s) && Enabled(s, step)
    ensures WellFormed(Do(s, step))
  {
  }

  lemma RegistrySafeStep(s: State, step: Step)
    requires Safe(s) && Enabled(s, step)
    ensures RegistrySafe(Do(s, step))
  {
    if !step.Open? && !step.Exit? {
      SessionsKept(s, step);
    }
  }

  /** The steps by which a session makes progress. */
  ghost predicate Advances(step: Step) {
    step.Open? || step.Fetch? || step.SendSnapshot? || step.Forward? || step.Deliver?
  }

  lemma AdvanceSessionsSafe(s: State, step: Step)
    requires SessionsSafe(s) && Enabled(s, step) && Advances(step)
    ensures SessionsSafe(Do(s, step))
  {
  }

  lemma SessionsSafeStep(s: State, step: Step)
    requires SessionsSafe(s) && Enabled(s, step)
    ensures SessionsSafe(Do(s, step))
  {
    if Advances(step) {
      AdvanceSessionsSafe(s, step);
    } else if !step.Break? && !step.Exit? {
      assert Do(s, step).sessions == s.sessions;
    }
  }

  lemma OneUpStep(s: State, step: Step)
    requires Safe(s) && Enabled(s, step)
    ensures OneUp(Do(s, step))
  {
    if !step.Open? && !step.Exit? {
      SessionsKept(s, step);
    }
  }

  lemma SafeStep(s: State, step: Step)
    requires Safe(s) && Enabled(s, step)
    ensures Safe(Do(s, step))
  {
    WellFormedStep(s, step);
    RegistrySafeStep(s, step);
    SessionsSafeStep(s, step);
    OneUpStep(s, step);
  }

  lemma ListsUniqueStep(s: State, step: Step)
    requires NoDuplicates(s) && Enabled(s, step)
    ensures ListsUnique(Do(s, step))
  {
    if step.Deliver? {
      ApplyUnique(ListOf(s, s.sessions[step.sid].node), s.sessions[step.sid].wire[0]);
    }
  }

  lemma SyncsUniqueSnoc(ms: seq<WsMessage>, m: WsMessage)
    requires SyncsUnique(ms) && (m.ConfigSync? ==> Unique(m.cameras))
    ensures SyncsUnique(ms + [m])
  {
  }

  lemma SyncsUniquePushed(s: State, n: Uuid, m: WsMessage)
    requires NoDuplicates(s) && (m.ConfigSync? ==> Unique(m.cameras))
    ensures forall k | k in Pushed(s.nodes, s.chans, n, m) :: SyncsUnique(Pushed(s.nodes, s.chans, n, m)[k])
  {
    if n in s.nodes && s.nodes[n] in s.chans {
      SyncsUniqueSnoc(s.chans[s.nodes[n]], m);
    }
  }

  lemma TransitUniqueStep(s: State, step: Step)
    requires WellFormed(s) && NoDuplicates(s) && Enabled(s, step)
    ensures TransitUnique(Do(s, step))
  {
    match step
    case Push(i) => SyncsUniquePushed(s, s.pending[i].node, s.pending[i].msg);
    case ApprovePush(i) => SyncsUniquePushed(s, s.approvals[i].node, ConfigSync(s.approvals[i].snapshot));
    case Notify(n, m) => SyncsUniquePushed(s, n, m);
    case SendSnapshot(sid) => SyncsUniqueSnoc(s.sessions[sid].wire, ConfigSync(s.sessions[sid].phase.snapshot));
    case Forward(sid) => SyncsUniqueSnoc(s.sessions[sid].wire, s.chans[sid][0]);
    case _ =>
  }

  lemma UpIsRegisteredStep(s: State, step: Step)
    requires Safe(s) && UpIsRegistered(s) && Enabled(s, step) && Good(s, step)
    ensures UpIsRegistered(Do(s, step))
  {
    if step.Exit? {
      UpIsRegisteredExit(s, step.sid);
    } else if !step.Open? {
      SessionsKept(s, step);
    }
  }

  lemma UpIsRegisteredExit(s: State, sid: nat)
    requires Safe(s) && UpIsRegistered(s) && Enabled(s, Exit(sid)) && Holds(NoStaleExit, s, Exit(sid))
    ensures UpIsRegistered(Do(s, Exit(sid)))
  {
    var n := s.sessions[sid].node;
    forall k | k in s.sessions && s.sessions[k].node == n && !s.sessions[k].broken
      ensures k == sid || s.sessions[k].phase.Exited?
    {
      assert if n in s.nodes then s.nodes[n] == k else s.sessions[k].phase.Exited?;
    }
  }

  /** Steps other than opening and exiting leave the registry alone and undo no exit. */
  lemma SessionsKept(s: State, step: Step)
    requires Enabled(s, step) && !step.Open? && !step.Exit?
    ensures var t := Do(s, step);
            && t.nodes == s.nodes && t.sessions.Keys == s.sessions.Keys
            && forall k | k in s.sessions ::
                 && t.sessions[k].node == s.sessions[k].node
                 && (t.sessions[k].phase.Exited? <==> s.sessions[k].phase.Exited?)
                 && (s.sessions[k].broken ==> t.sessions[k].broken)
  {
  }

  // ---- Each step keeps a camera converging ----

  lemma {:induction false} ForConcat(a: seq<Pending>, b: seq<Pending>, n: Uuid)
    ensures For(a + b, n) == For(a, n) + For(b, n)
  {
    if a == [] {
      assert a + b == b;
    } else {
      SliceConcat(a, b, 1);
      ForConcat(a[1..], b, n);
      Assoc(if a[0].node == n then [a[0].msg] else [], For(a[1..], n), For(b, n));
    }
  }

  lemma {:induction false} ForHarmless(a: seq<Pending>, n: Uuid, m: WsMessage)
    requires forall j | 0 <= j < |a| && a[j].node == n :: Harmless(a[j].msg, m)
    ensures forall j | 0 <= j < |For(a, n)| :: Harmless(For(a, n)[j], m)
  {
    if a != [] {
      ForHarmless(a[1..], n, m);
    }
  }

  lemma CommitLog(start: CamState, log: seq<WsMessage>, p: seq<WsMessage>, m: WsMessage, row: CamState, id: Uuid)
    requires Fold(start, log + p, id) == row
    ensures Fold(start, log + (p + [m]), id) == CamApply(row, m, id)
    ensures start == row ==> Fold(CamApply(row, m, id), log + (p + [m]), id) == CamApply(row, m, id)
  {
    FoldSnoc(start, log + p, m, id);
    assert log + p + [m] == log + (p + [m]);
    ReplayIdempotent(start, log + (p + [m]), id);
  }

  ghost predicate Commits(step: Step) {
    step.CreateCommit? || step.UpdateCommit? || step.DeleteCommit?
  }

  /** A commit changes the row of a camera by exactly the message it queues for the row's node. */
  lemma CommitEffect(s: State, step: Step, n: Uuid, id: Uuid)
    requires WellFormed(s) && Enabled(s, step) && Commits(step)
    ensures var t := Do(s, step);
            && |t.pending| == |s.pending| + 1
            && var entry := t.pending[|s.pending|];
            && t.pending == s.pending + [entry]
            && (For(t.pending, n) == if entry.node == n then For(s.pending, n) + [entry.msg] else For(s.pending, n))
            && RowConfig(t.db, n, id) == if entry.node == n then CamApply(RowConfig(s.db, n, id), entry.msg, id)
                                         else RowConfig(s.db, n, id)
  {
    var entry := CommitRow(s, step, n, id);
    ForSnoc(s.pending, entry, n);
  }

  lemma CommitRow(s: State, step: Step, n: Uuid, id: Uuid) returns (entry: Pending)
    requires WellFormed(s) && Enabled(s, step) && Commits(step)
    ensures Do(s, step).pending == s.pending + [entry]
    ensures RowConfig(Do(s, step).db, n, id) == if entry.node == n then CamApply(RowConfig(s.db, n, id), entry.msg, id)
                                                else RowConfig(s.db, n, id)
  {
    entry := Do(s, step).pending[|s.pending|];
  }

  lemma CommitSettled(s: State, step: Step, n: Uuid, id: Uuid)
    requires WellFormed(s) && Enabled(s, step) && Commits(step) && Settled(s, n, id)
    ensures Settled(Do(s, step), n, id)
  {
    var p, row := For(s.pending, n), RowConfig(s.db, n, id);
    var entry := Do(s, step).pending[|s.pending|];
    CommitEffect(s, step, n, id);
    assert [] + p == p;
    assert [] + (p + [entry.msg]) == p + [entry.msg];
    CommitLog(row, [], p, entry.msg, row, id);
  }

  lemma CommitFollowing(s: State, step: Step, n: Uuid, id: Uuid)
    requires WellFormed(s) && Enabled(s, step) && Commits(step) && Following(s, n, id)
    ensures Following(Do(s, step), n, id)
  {
    var entry := Do(s, step).pending[|s.pending|];
    CommitEffect(s, step, n, id);
    if Tracked(s, n) {
      CommitLog(Start(s, n, id), Log(s, n), For(s.pending, n), entry.msg, RowConfig(s.db, n, id), id);
    }
  }

  lemma ForSnoc(a: seq<Pending>, p: Pending, n: Uuid)
    ensures For(a + [p], n) == if p.node == n then For(a, n) + [p.msg] else For(a, n)
  {
    ForConcat(a, [p], n);
  }

  lemma ForSplit(pending: seq<Pending>, i: nat, n: Uuid)
    requires i < |pending|
    ensures var a, b := For(pending[..i], n), For(pending[i + 1..], n);
            && For(RemoveAt(pending, i), n) == a + b
            && For(pending, n) == if pending[i].node == n then a + [pending[i].msg] + b else a + b
  {
    assert pending == pending[..i] + [pending[i]] + pending[i + 1..];
    ForConcat(pending[..i] + [pending[i]], pending[i + 1..], n);
    ForSnoc(pending[..i], pending[i], n);
    ForConcat(pending[..i], pending[i + 1..], n);
  }

  /** A pushed message leaves the pending ones, dropped or at the end of the channel. */
  lemma PushLog(start: CamState, log: seq<WsMessage>, a: seq<WsMessage>, m: WsMessage, b: seq<WsMessage>, row: CamState, id: Uuid)
    requires forall j | 0 <= j < |a| :: Harmless(a[j], m)
    requires Fold(start, log + (a + [m] + b), id) == row
    ensures Fold(start, log + [m] + (a + b), id) == row
  {
    FoldConcat(start, log, a + [m] + b, id);
    MoveToFront(Fold(start, log, id), a, m, b, id);
    FoldConcat(start, log, [m] + a + b, id);
    Assoc([m], a, b);
    Assoc(log, [m], a + b);
  }

  lemma PushSettled(s: State, i: nat, n: Uuid, id: Uuid)
    requires WellFormed(s) && Enabled(s, Push(i)) && Good(s, Push(i)) && Settled(s, n, id)
    ensures Settled(Do(s, Push(i)), n, id)
  {
    var m := s.pending[i].msg;
    var a, b := For(s.pending[..i], n), For(s.pending[i + 1..], n);
    var row := RowConfig(s.db, n, id);
    ForSplit(s.pending, i, n);
    if s.pending[i].node == n {
      ForHarmless(s.pending[..i], n, m);
      MoveToFront(row, a, m, b, id);
      Assoc([m], a, b);
      DropFirst(row, m, a + b, id);
    }
  }

  /** A message pushed to a tracked node joins the end of its log and changes nothing else. */
  lemma PushedLog(s: State, t: State, m: WsMessage, n: Uuid)
    requires Tracked(s, n) && t == s.(pending := t.pending, approvals := t.approvals, chans := Pushed(s.nodes, s.chans, n, m))
    ensures Tracked(t, n) && Log(t, n) == Log(s, n) + [m]
    ensures forall id: Uuid :: Start(t, n, id) == Start(s, n, id)
  {
    Assoc(s.sessions[s.nodes[n]].wire, s.chans[s.nodes[n]], [m]);
  }

  lemma PushFollowing(s: State, i: nat, n: Uuid, id: Uuid)
    requires WellFormed(s) && RegistrySafe(s) && Enabled(s, Push(i)) && Good(s, Push(i)) && Following(s, n, id)
    ensures Following(Do(s, Push(i)), n, id)
  {
    var m := s.pending[i].msg;
    var a, b := For(s.pending[..i], n), For(s.pending[i + 1..], n);
    ForSplit(s.pending, i, n);
    if s.pending[i].node != n {
      PushedElsewhere(s, s.pending[i].node, m, n);
    } else if Tracked(s, n) {
      ForHarmless(s.pending[..i], n, m);
      PushLog(Start(s, n, id), Log(s, n), a, m, b, RowConfig(s.db, n, id), id);
      PushedLog(s, Do(s, Push(i)), m, n);
    }
  }

  /** Whatever it overtakes, a push keeps a camera converging exactly if the database row is what the log, the push
      and then the rest end in, and what the rest leaves alone. */
  lemma PushIff(s: State, i: nat, id: Uuid)
    requires Safe(s) && Enabled(s, Push(i)) && Tracked(s, s.pending[i].node)
    ensures Converging(Do(s, Push(i)), s.pending[i].node, id)
       <==> var n, row := s.pending[i].node, RowConfig(s.db, s.pending[i].node, id);
            && Fold(Start(s, n, id), Log(s, n) + [s.pending[i].msg] + For(RemoveAt(s.pending, i), n), id) == row
            && Fold(row, For(RemoveAt(s.pending, i), n), id) == row
  {
    PushedLog(s, Do(s, Push(i)), s.pending[i].msg, s.pending[i].node);
  }

  /** A push to another node leaves this node's channel alone. */
  lemma PushedElsewhere(s: State, other: Uuid, m: WsMessage, n: Uuid)
    requires RegistrySafe(s) && n != other
    ensures n in s.nodes && s.nodes[n] in s.chans ==>
              s.nodes[n] in Pushed(s.nodes, s.chans, other, m)
              && Pushed(s.nodes, s.chans, other, m)[s.nodes[n]] == s.chans[s.nodes[n]]
  {
  }

  /** A full list cuts off the log before it; a message about no camera adds nothing. */
  lemma JoinLog(start: CamState, log: seq<WsMessage>, p: seq<WsMessage>, m: WsMessage, id: Uuid)
    ensures m.ConfigSync? ==> Fold(start, log + [m] + p, id) == Fold(Lookup(m.cameras, id), p, id)
    ensures m.DeleteRecording? || m.Pong? ==> Fold(start, log + [m] + p, id) == Fold(start, log + p, id)
  {
    FoldConcat(start, log, p, id);
    FoldConcat(start, log + [m], p, id);
    FoldSnoc(start, log, m, id);
  }

  /** An approval's push keeps a camera converging exactly if what is pending brings its rows up to date. */
  lemma ApprovalPushIff(s: State, i: nat, id: Uuid)
    requires Safe(s) && Enabled(s, ApprovePush(i)) && Tracked(s, s.approvals[i].node) && Converging(s, s.approvals[i].node, id)
    ensures Converging(Do(s, ApprovePush(i)), s.approvals[i].node, id)
       <==> Fold(Lookup(s.approvals[i].snapshot, id), For(s.pending, s.approvals[i].node), id)
              == RowConfig(s.db, s.approvals[i].node, id)
  {
    var a, t := s.approvals[i], Do(s, ApprovePush(i));
    PushedLog(s, t, ConfigSync(a.snapshot), a.node);
    JoinLog(Start(s, a.node, id), Log(s, a.node), For(s.pending, a.node), ConfigSync(a.snapshot), id);
  }

  lemma ApprovePushStep(s: State, i: nat, n: Uuid, id: Uuid)
    requires Safe(s) && Enabled(s, ApprovePush(i)) && Good(s, ApprovePush(i)) && Converging(s, n, id)
    ensures Converging(Do(s, ApprovePush(i)), n, id)
  {
    var a := s.approvals[i];
    if a.node != n {
      PushedElsewhere(s, a.node, ConfigSync(a.snapshot), n);
    } else if Tracked(s, n) {
      ApprovalPushIff(s, i, id);
    }
  }

  lemma NotifyStep(s: State, node: Uuid, m: WsMessage, n: Uuid, id: Uuid)
    requires Safe(s) && Enabled(s, Notify(node, m)) && Converging(s, n, id)
    ensures Converging(Do(s, Notify(node, m)), n, id)
  {
    if node != n {
      PushedElsewhere(s, node, m, n);
    } else if Tracked(s, n) {
      PushedLog(s, Do(s, Notify(node, m)), m, n);
      JoinLog(Start(s, n, id), Log(s, n), For(s.pending, n), m, id);
    }
  }

  lemma SendSnapshotStep(s: State, sid: nat, n: Uuid, id: Uuid)
    requires Safe(s) && Enabled(s, SendSnapshot(sid)) && Converging(s, n, id)
    ensures Converging(Do(s, SendSnapshot(sid)), n, id)
  {
    var t := Do(s, SendSnapshot(sid));
    if n in s.nodes && s.nodes[n] == sid && Tracked(t, n) {
      SnapshotSent(s, sid, n);
      FoldCons(Start(t, n, id), ConfigSync(s.sessions[sid].phase.snapshot), Log(s, n) + For(s.pending, n), id);
      Assoc([ConfigSync(s.sessions[sid].phase.snapshot)], Log(s, n), For(s.pending, n));
    }
  }

  /** The snapshot goes before everything the channel has collected. */
  lemma SnapshotSent(s: State, sid: nat, n: Uuid)
    requires Safe(s) && Enabled(s, SendSnapshot(sid)) && n in s.nodes && s.nodes[n] == sid
    requires Tracked(s, n) && Tracked(Do(s, SendSnapshot(sid)), n)
    ensures Log(Do(s, SendSnapshot(sid)), n) == [ConfigSync(s.sessions[sid].phase.snapshot)] + Log(s, n)
  {
    assert s.sessions[sid].wire == [];
  }

  lemma ForwardStep(s: State, sid: nat, n: Uuid, id: Uuid)
    requires Safe(s) && Enabled(s, Forward(sid)) && Converging(s, n, id)
    ensures Converging(Do(s, Forward(sid)), n, id)
  {
    var t := Do(s, Forward(sid));
    if n in s.nodes && s.nodes[n] == sid && Tracked(t, n) {
      ForwardedLog(s, sid, n);
    }
  }

  /** Forwarding moves a message from the channel to the wire. */
  lemma ForwardedLog(s: State, sid: nat, n: Uuid)
    requires Enabled(s, Forward(sid)) && n in s.nodes && s.nodes[n] == sid
    requires Tracked(s, n) && Tracked(Do(s, Forward(sid)), n)
    ensures Log(Do(s, Forward(sid)), n) == Log(s, n)
  {
    var wire, chan := s.sessions[sid].wire, s.chans[sid];
    assert chan == [chan[0]] + chan[1..];
    Assoc(wire, [chan[0]], chan[1..]);
  }

  lemma DeliverStep(s: State, sid: nat, n: Uuid, id: Uuid)
    requires Safe(s) && UpIsRegistered(s) && Enabled(s, Deliver(sid)) && Converging(s, n, id)
    ensures Converging(Do(s, Deliver(sid)), n, id)
  {
    var t := Do(s, Deliver(sid));
    if n in s.nodes && s.nodes[n] == sid && Tracked(t, n) {
      var m, list := s.sessions[sid].wire[0], ListOf(s, n);
      var p := For(s.pending, n);
      ApplyLookup(list, m, id);
      DeliveredLog(s, sid, n);
      Assoc([m], Log(t, n), p);
      FoldCons(Lookup(list, id), m, Log(t, n) + p, id);
    }
  }

  /** A delivery takes the first message off the wire. */
  lemma DeliveredLog(s: State, sid: nat, n: Uuid)
    requires Enabled(s, Deliver(sid)) && n in s.nodes && s.nodes[n] == sid
    requires Tracked(s, n) && Tracked(Do(s, Deliver(sid)), n)
    ensures Log(s, n) == [s.sessions[sid].wire[0]] + Log(Do(s, Deliver(sid)), n)
  {
    var wire := s.sessions[sid].wire;
    assert wire == [wire[0]] + wire[1..];
    Assoc([wire[0]], wire[1..], s.chans[sid]);
  }

  lemma OpenStep(s: State, sid: nat, node: Uuid, n: Uuid, id: Uuid)
    requires Safe(s) && Enabled(s, Open(sid, node)) && Converging(s, n, id)
    ensures Converging(Do(s, Open(sid, node)), n, id)
  {
    if node == n {
      assert Log(Do(s, Open(sid, node)), n) + For(s.pending, n) == For(s.pending, n);
    }
  }

  /** A snapshot keeps a camera converging exactly if the log and what is pending bring it up to date. */
  lemma FetchIff(s: State, sid: nat, snapshot: seq<NodeCameraConfig>, id: Uuid)
    requires Safe(s) && Enabled(s, Fetch(sid, snapshot)) && Converging(s, s.sessions[sid].node, id)
    requires s.sessions[sid].node in s.nodes && s.nodes[s.sessions[sid].node] == sid && !s.sessions[sid].broken
    ensures Converging(Do(s, Fetch(sid, snapshot)), s.sessions[sid].node, id)
       <==> Fold(Lookup(snapshot, id), s.chans[sid] + For(s.pending, s.sessions[sid].node), id)
              == RowConfig(s.db, s.sessions[sid].node, id)
  {
    var n, t := s.sessions[sid].node, Do(s, Fetch(sid, snapshot));
    assert Log(t, n) == s.chans[sid];
  }

  lemma FetchStep(s: State, sid: nat, snapshot: seq<NodeCameraConfig>, n: Uuid, id: Uuid)
    requires Safe(s) && Enabled(s, Fetch(sid, snapshot)) && Good(s, Fetch(sid, snapshot)) && Converging(s, n, id)
    ensures Converging(Do(s, Fetch(sid, snapshot)), n, id)
  {
  }

  lemma DisconnectStep(s: State, step: Step, n: Uuid, id: Uuid)
    requires Safe(s) && Enabled(s, step) && Converging(s, n, id)
    requires step.ApproveFetch? || step.Break? || step.Exit? || step.NodeRestart?
    ensures Converging(Do(s, step), n, id)
  {
    assert Settled(Do(s, step), n, id);
  }

  lemma ConvergingStep(s: State, step: Step, n: Uuid, id: Uuid)
    requires Safe(s) && UpIsRegistered(s) && Enabled(s, step) && Good(s, step) && Converging(s, n, id)
    ensures Converging(Do(s, step), n, id)
  {
    if Commits(step) {
      CommitSettled(s, step, n, id);
      CommitFollowing(s, step, n, id);
      return;
    }
    match step
    case Push(i) => PushSettled(s, i, n, id); PushFollowing(s, i, n, id);
    case ApprovePush(i) => ApprovePushStep(s, i, n, id);
    case Notify(node, m) => NotifyStep(s, node, m, n, id);
    case SendSnapshot(sid) => SendSnapshotStep(s, sid, n, id);
    case Forward(sid) => ForwardStep(s, sid, n, id);
    case Deliver(sid) => DeliverStep(s, sid, n, id);
    case Open(sid, node) => OpenStep(s, sid, node, n, id);
    case Fetch(sid, snapshot) => FetchStep(s, sid, snapshot, n, id);
    case _ => DisconnectStep(s, step, n, id);
  }
}
