/**
 * What a node's list becomes when nothing new happens: from any state, the registered session's messages and the
 * pending ones decide the list, however they are interleaved. With it the step conditions of `Replication` say
 * when the list itself converges.
 */
module ReplicationDrains {
  import opened Common
  import opened Messages
  import opened CameraList
  import opened ReplayLog
  import opened Replication
  import opened ReplicationSteps
  import opened ReplicationRuns
  import opened Strings

  /** What camera `id` of node `n` becomes once all that is on its way has arrived. */
  ghost function Destiny(s: State, n: Uuid, id: Uuid): CamState
    requires Tracked(s, n)
  {
    Fold(Start(s, n, id), Log(s, n) + For(s.pending, n), id)
  }

  // ---- What the three doubtful steps make of it ----

  lemma ApprovalDestiny(s: State, i: nat, id: Uuid)
    requires Safe(s) && Enabled(s, ApprovePush(i)) && Tracked(s, s.approvals[i].node)
    ensures Tracked(Do(s, ApprovePush(i)), s.approvals[i].node)
    ensures Destiny(Do(s, ApprovePush(i)), s.approvals[i].node, id)
         == Fold(Lookup(s.approvals[i].snapshot, id), For(s.pending, s.approvals[i].node), id)
  {
    var a := s.approvals[i];
    PushedLog(s, Do(s, ApprovePush(i)), ConfigSync(a.snapshot), a.node);
    JoinLog(Start(s, a.node, id), Log(s, a.node), For(s.pending, a.node), ConfigSync(a.snapshot), id);
  }

  lemma PushDestiny(s: State, i: nat, id: Uuid)
    requires Safe(s) && Enabled(s, Push(i)) && Tracked(s, s.pending[i].node)
    ensures Tracked(Do(s, Push(i)), s.pending[i].node)
    ensures Destiny(Do(s, Push(i)), s.pending[i].node, id)
         == Fold(Start(s, s.pending[i].node, id),
                 Log(s, s.pending[i].node) + [s.pending[i].msg] + For(RemoveAt(s.pending, i), s.pending[i].node), id)
  {
    PushedLog(s, Do(s, Push(i)), s.pending[i].msg, s.pending[i].node);
  }

  lemma FetchDestiny(s: State, sid: nat, snapshot: seq<NodeCameraConfig>, id: Uuid)
    requires Safe(s) && Enabled(s, Fetch(sid, snapshot)) && IsRegistered(s, sid)
    requires !s.sessions[sid].broken
    ensures Tracked(Do(s, Fetch(sid, snapshot)), s.sessions[sid].node)
    ensures Destiny(Do(s, Fetch(sid, snapshot)), s.sessions[sid].node, id)
         == Fold(Lookup(snapshot, id), s.chans[sid] + For(s.pending, s.sessions[sid].node), id)
  {
    assert Log(Do(s, Fetch(sid, snapshot)), s.sessions[sid].node) == s.chans[sid];
  }

  // ---- Bringing everything home ----

  /** A step that only moves messages on, each node's pushes in commit order. */
  predicate Quiet(s: State, step: Step) {
    match step
    case Push(i) => i < |s.pending| && forall j | 0 <= j < i :: s.pending[j].node != s.pending[i].node
    case SendSnapshot(_) => true
    case Forward(_) => true
    case Deliver(_) => true
    case _ => false
  }

  ghost predicate QuietRun(s: State, steps: seq<Step>)
    requires Runs(s, steps)
    decreases |steps|
  {
    steps == [] || (Quiet(s, steps[0]) && QuietRun(Do(s, steps[0]), steps[1..]))
  }

  /** Session `k` is the registered one of its node, is up, and has its rows. */
  ghost predicate Serving(s: State, k: nat) {
    && IsRegistered(s, k) && k in s.chans && !s.sessions[k].broken
    && (s.sessions[k].phase.Fetched? || s.sessions[k].phase.Live?)
  }

  lemma {:induction false} NoneFor(a: seq<Pending>, n: Uuid)
    requires forall j | 0 <= j < |a| :: a[j].node != n
    ensures For(a, n) == []
  {
    if a != [] {
      NoneFor(a[1..], n);
    }
  }

  lemma QuietPush(s: State, i: nat, k: nat, id: Uuid)
    requires Safe(s) && Serving(s, k) && Enabled(s, Push(i)) && Quiet(s, Push(i))
    ensures Serving(Do(s, Push(i)), k)
    ensures Destiny(Do(s, Push(i)), s.sessions[k].node, id) == Destiny(s, s.sessions[k].node, id)
  {
    if s.pending[i].node == s.sessions[k].node {
      QuietOwnPush(s, i, k, id);
    } else {
      ForSplit(s.pending, i, s.sessions[k].node);
      PushedElsewhere(s, s.pending[i].node, s.pending[i].msg, s.sessions[k].node);
    }
  }

  lemma QuietOwnPush(s: State, i: nat, k: nat, id: Uuid)
    requires Safe(s) && Serving(s, k) && Enabled(s, Push(i)) && Quiet(s, Push(i)) && s.pending[i].node == s.sessions[k].node
    ensures Serving(Do(s, Push(i)), k)
    ensures Destiny(Do(s, Push(i)), s.sessions[k].node, id) == Destiny(s, s.sessions[k].node, id)
  {
    var n, m := s.sessions[k].node, s.pending[i].msg;
    PushedLog(s, Do(s, Push(i)), m, n);
    FirstFor(s.pending, i, n);
    Assoc(Log(s, n), [m], For(RemoveAt(s.pending, i), n));
  }

  lemma FirstFor(pending: seq<Pending>, i: nat, n: Uuid)
    requires i < |pending| && pending[i].node == n && forall j | 0 <= j < i :: pending[j].node != n
    ensures For(pending, n) == [pending[i].msg] + For(RemoveAt(pending, i), n)
  {
    ForSplit(pending, i, n);
    NoneFor(pending[..i], n);
    EmptyFront([pending[i].msg]);
    EmptyFront(For(pending[i + 1..], n));
  }

  lemma QuietSend(s: State, sid: nat, k: nat, id: Uuid)
    requires Safe(s) && Serving(s, k) && Enabled(s, SendSnapshot(sid))
    ensures Serving(Do(s, SendSnapshot(sid)), k)
    ensures Destiny(Do(s, SendSnapshot(sid)), s.sessions[k].node, id) == Destiny(s, s.sessions[k].node, id)
  {
    var n, t := s.sessions[k].node, Do(s, SendSnapshot(sid));
    if sid == k {
      var m := ConfigSync(s.sessions[k].phase.snapshot);
      SnapshotSent(s, k, n);
      FoldCons(Start(t, n, id), m, Log(s, n) + For(s.pending, n), id);
      Assoc([m], Log(s, n), For(s.pending, n));
    }
  }

  lemma QuietForward(s: State, sid: nat, k: nat, id: Uuid)
    requires Safe(s) && Serving(s, k) && Enabled(s, Forward(sid))
    ensures Serving(Do(s, Forward(sid)), k)
    ensures Destiny(Do(s, Forward(sid)), s.sessions[k].node, id) == Destiny(s, s.sessions[k].node, id)
  {
    if sid == k {
      ForwardedLog(s, k, s.sessions[k].node);
    }
  }

  lemma QuietDeliver(s: State, sid: nat, k: nat, id: Uuid)
    requires Safe(s) && Serving(s, k) && Enabled(s, Deliver(sid))
    ensures Serving(Do(s, Deliver(sid)), k)
    ensures Destiny(Do(s, Deliver(sid)), s.sessions[k].node, id) == Destiny(s, s.sessions[k].node, id)
  {
    var n, t := s.sessions[k].node, Do(s, Deliver(sid));
    if sid == k {
      var m, p := s.sessions[k].wire[0], For(s.pending, n);
      ApplyLookup(ListOf(s, n), m, id);
      DeliveredLog(s, k, n);
      Assoc([m], Log(t, n), p);
      FoldCons(Lookup(ListOf(s, n), id), m, Log(t, n) + p, id);
    }
  }

  lemma QuietStep(s: State, step: Step, k: nat, id: Uuid)
    requires Safe(s) && Serving(s, k) && Enabled(s, step) && Quiet(s, step)
    ensures Serving(Do(s, step), k) && Do(s, step).db == s.db && Do(s, step).sessions[k].node == s.sessions[k].node
    ensures Destiny(Do(s, step), s.sessions[k].node, id) == Destiny(s, s.sessions[k].node, id)
  {
    match step
    case Push(i) => QuietPush(s, i, k, id);
    case SendSnapshot(sid) => QuietSend(s, sid, k, id);
    case Forward(sid) => QuietForward(s, sid, k, id);
    case Deliver(sid) => QuietDeliver(s, sid, k, id);
  }

  lemma {:induction false} QuietRunDestiny(s: State, steps: seq<Step>, k: nat, id: Uuid)
    requires Safe(s) && Serving(s, k) && Runs(s, steps) && QuietRun(s, steps)
    ensures Serving(Exec(s, steps), k) && Exec(s, steps).db == s.db && Exec(s, steps).sessions[k].node == s.sessions[k].node
    ensures Destiny(Exec(s, steps), s.sessions[k].node, id) == Destiny(s, s.sessions[k].node, id)
    decreases |steps|
  {
    if steps != [] {
      QuietStep(s, steps[0], k, id);
      SafeStep(s, steps[0]);
      QuietRunDestiny(Do(s, steps[0]), steps[1..], k, id);
    }
  }

  lemma {:induction false} QuietRunUnique(s: State, steps: seq<Step>)
    requires Safe(s) && NoDuplicates(s) && Runs(s, steps)
    ensures NoDuplicates(Exec(s, steps))
    decreases |steps|
  {
    if steps != [] {
      ListsUniqueStep(s, steps[0]);
      TransitUniqueStep(s, steps[0]);
      SafeStep(s, steps[0]);
      QuietRunUnique(Do(s, steps[0]), steps[1..]);
    }
  }

  /** However the messages under way are brought home, the node's list ends as destined, camera by camera. So it
      agrees with the database exactly if the destinies did. No assumption on what went before is needed. */
  lemma ListConvergesIff(s: State, steps: seq<Step>, k: nat)
    requires Safe(s) && NoDuplicates(s) && Serving(s, k) && Runs(s, steps) && QuietRun(s, steps) && Idle(Exec(s, steps), k)
    ensures forall id: Uuid :: Lookup(ListOf(Exec(s, steps), s.sessions[k].node), id) == Destiny(s, s.sessions[k].node, id)
    ensures Converged(Exec(s, steps), s.sessions[k].node)
       <==> forall id: Uuid :: Destiny(s, s.sessions[k].node, id) == RowConfig(s.db, s.sessions[k].node, id)
  {
    var t, n := Exec(s, steps), s.sessions[k].node;
    QuietRunUnique(s, steps);
    forall id: Uuid
      ensures t.db == s.db && Lookup(ListOf(t, n), id) == Destiny(s, n, id)
    {
      QuietRunDestiny(s, steps, k, id);
      assert Log(t, n) + For(t.pending, n) == [];
    }
    QuietRunDestiny(s, steps, k, 0);
    if Converged(t, n) {
      forall id: Uuid ensures Destiny(s, n, id) == RowConfig(s.db, n, id) {
        assert Lookup(ListOf(t, n), id) == RowConfig(t.db, n, id);
      }
    }
    assert Unique(ListOf(t, n));
  }

  // ---- Approvals that do not wait ----

  /** Each approval reads its rows successfully and pushes them with nothing in between. */
  ghost predicate ApprovesAtOnce(s: State, steps: seq<Step>)
    requires Runs(s, steps)
    decreases |steps|
  {
    steps == []
    || (&& (steps[0].ApproveFetch? ==>
              IsSnapshot(steps[0].snapshot, s.db, steps[0].node) && |steps| > 1 && steps[1] == ApprovePush(0))
        && ApprovesAtOnce(Do(s, steps[0]), steps[1..]))
  }

  ghost predicate AllSettled(s: State) {
    forall n: Uuid, id: Uuid :: Settled(s, n, id)
  }

  lemma SettledStep(s: State, step: Step)
    requires WellFormed(s) && AllSettled(s) && Enabled(s, step) && Holds(CommitOrder, s, step)
    ensures WellFormed(Do(s, step)) && AllSettled(Do(s, step))
  {
    forall n: Uuid, id: Uuid ensures Settled(Do(s, step), n, id) {
      assert Settled(s, n, id);
      if Commits(step) {
        CommitSettled(s, step, n, id);
      } else if step.Push? {
        PushSettled(s, step.index, n, id);
      } else {
        assert Do(s, step).db == s.db && Do(s, step).pending == s.pending;
      }
    }
  }

  /** No approval waits, or one does whose rows were read in the step before. */
  ghost predicate Prompt(s: State, steps: seq<Step>) {
    || s.approvals == []
    || (|s.approvals| == 1 && IsSnapshot(s.approvals[0].snapshot, s.db, s.approvals[0].node)
        && steps != [] && steps[0] == ApprovePush(0))
  }

  /** Rows read in the step before are current, and stay so under what is still to be pushed. */
  lemma PromptIsFresh(s: State, steps: seq<Step>)
    requires AllSettled(s) && Prompt(s, steps) && steps != [] && Enabled(s, steps[0])
    ensures Holds(FreshApproval, s, steps[0])
  {
    if steps[0].ApprovePush? {
      var a := s.approvals[0];
      forall id: Uuid ensures Fold(Lookup(a.snapshot, id), For(s.pending, a.node), id) == RowConfig(s.db, a.node, id) {
        assert Settled(s, a.node, id);
      }
    }
  }

  lemma PromptStep(s: State, steps: seq<Step>)
    requires Prompt(s, steps) && Runs(s, steps) && steps != [] && ApprovesAtOnce(s, steps)
    ensures Prompt(Do(s, steps[0]), steps[1..])
  {
    if steps[0].ApproveFetch? {
      assert Do(s, steps[0]).approvals == [Approval(steps[0].node, steps[0].snapshot)];
    }
  }

  /** So an approval that pushes at once needs no further assumption. */
  lemma {:induction false} AtOnceIsFresh(s: State, steps: seq<Step>)
    requires WellFormed(s) && AllSettled(s) && Prompt(s, steps)
    requires Runs(s, steps) && RunKeeps(CommitOrder, s, steps) && ApprovesAtOnce(s, steps)
    ensures RunKeeps(FreshApproval, s, steps)
    decreases |steps|
  {
    if steps != [] {
      SettledStep(s, steps[0]);
      PromptIsFresh(s, steps);
      PromptStep(s, steps);
      AtOnceIsFresh(Do(s, steps[0]), steps[1..]);
    }
  }

  /** Replica convergence without the two assumptions that the handlers can meet by themselves: sessions that do not
      overlap, and approvals that push at once. */
  lemma ConvergenceAtOnce(init: State, steps: seq<Step>, k: nat)
    requires Init(init) && Runs(init, steps) && NeverOverlaps(init, steps) && ApprovesAtOnce(init, steps)
    requires RunKeeps(CommitOrder, init, steps) && RunKeeps(QuerySucceeds, init, steps)
    requires Idle(Exec(init, steps), k)
    ensures Converged(Exec(init, steps), Exec(init, steps).sessions[k].node)
  {
    InitInv(init);
    forall n: Uuid, id: Uuid ensures Settled(init, n, id) {
      assert Converging(init, n, id);
    }
    AtOnceIsFresh(init, steps);
    ConvergenceWithoutOverlap(init, steps, k);
  }
}
