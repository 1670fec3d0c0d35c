/** Concurrent create requests: the capacity check and the INSERT of one request are separate steps. */
module CapacityRace {
  import opened Common
  import opened Allocation

  /** A create request aimed at `node`: before its check, or past it and before its INSERT. */
  datatype Request = Arrived(node: Uuid) | Checked(node: Uuid)

  datatype State = State(cameras: map<Uuid, Uuid>, requests: map<nat, Request>)

  datatype Step =
    | Arrive(r: nat, node: Uuid)
    | Check(r: nat)
    | Insert(r: nat, camera: Uuid)
    | InsertFails(r: nat)
    | Delete(camera: Uuid)

  predicate Enabled(s: State, step: Step) {
    match step
    case Arrive(r, _) => r !in s.requests
    case Check(r) => r in s.requests && s.requests[r].Arrived?
    case Insert(r, c) => r in s.requests && s.requests[r].Checked? && c !in s.cameras
    case InsertFails(r) => r in s.requests && s.requests[r].Checked?
    case Delete(c) => c in s.cameras
  }

  function Do(s: State, step: Step): State
    requires Enabled(s, step)
  {
    match step
    case Arrive(r, n) => s.(requests := s.requests[r := Arrived(n)])
    case Check(r) =>
      var n := s.requests[r].node;
      if Load(s.cameras, n) >= MAX_CAMERAS_PER_NODE then s.(requests := s.requests - {r})
      else s.(requests := s.requests[r := Checked(n)])
    case Insert(r, c) => State(s.cameras[c := s.requests[r].node], s.requests - {r})
    case InsertFails(r) => s.(requests := s.requests - {r})
    case Delete(c) => s.(cameras := s.cameras - {c})
  }

  /** The requests in flight on a node, and those past their check. */
  function InFlight(s: State, n: Uuid): set<nat> {
    set r | r in s.requests && s.requests[r].node == n
  }

  function PastCheck(s: State, n: Uuid): set<nat> {
    set r | r in s.requests && s.requests[r] == Checked(n)
  }

  predicate Runs(s: State, steps: seq<Step>)
    decreases |steps|
  {
    steps == [] || (Enabled(s, steps[0]) && Runs(Do(s, steps[0]), steps[1..]))
  }

  function Exec(s: State, steps: seq<Step>): State
    requires Runs(s, steps)
    decreases |steps|
  {
    if steps == [] then s else Exec(Do(s, steps[0]), steps[1..])
  }

  /** Never more than `k` requests in flight on node `n`. */
  predicate AtMost(s: State, steps: seq<Step>, n: Uuid, k: nat)
    requires Runs(s, steps)
    decreases |steps|
  {
    |InFlight(s, n)| <= k && (steps == [] || AtMost(Do(s, steps[0]), steps[1..], n, k))
  }

  /** Cameras present and cameras about to be inserted. */
  function Committed(s: State, n: Uuid): nat {
    Load(s.cameras, n) + |PastCheck(s, n)|
  }

  lemma PastCheckInFlight(s: State, n: Uuid)
    ensures |PastCheck(s, n)| <= |InFlight(s, n)|
  {
    SubsetSize(PastCheck(s, n), InFlight(s, n));
  }

  lemma {:induction false} SubsetSize(a: set<nat>, b: set<nat>)
    requires a <= b
    ensures |a| <= |b|
    decreases |a|
  {
    if a != {} {
      var x :| x in a;
      SubsetSize(a - {x}, b - {x});
    }
  }

  lemma StepCommitted(s: State, step: Step, n: Uuid, k: nat)
    requires Enabled(s, step) && k >= 1
    requires Committed(s, n) <= MAX_CAMERAS_PER_NODE - 1 + k
    requires |InFlight(Do(s, step), n)| <= k
    ensures Committed(Do(s, step), n) <= MAX_CAMERAS_PER_NODE - 1 + k
  {
    var t := Do(s, step);
    match step
    case Arrive(r, _) => assert PastCheck(t, n) == PastCheck(s, n);
    case Check(r) =>
      if s.requests[r].node == n && Load(s.cameras, n) < MAX_CAMERAS_PER_NODE {
        PastCheckInFlight(t, n);
      } else {
        assert PastCheck(t, n) == PastCheck(s, n);
      }
    case Insert(r, c) =>
      LoadInsert(s.cameras, c, s.requests[r].node, n);
      assert PastCheck(t, n) == PastCheck(s, n) - {r};
    case InsertFails(r) => assert PastCheck(t, n) == PastCheck(s, n) - {r};
    case Delete(c) =>
      LoadDelete(s.cameras, c, n);
      assert PastCheck(t, n) == PastCheck(s, n);
  }

  /** A step exactly: an INSERT puts one camera on its request's node, a delete takes one off its node, nothing else
      moves a camera; a request passes its check exactly if the node has fewer than 64. */
  lemma StepExact(s: State, step: Step, n: Uuid)
    requires Enabled(s, step)
    ensures var t := Do(s, step);
            Load(t.cameras, n)
            == if step.Insert? && s.requests[step.r].node == n then Load(s.cameras, n) + 1
               else if step.Delete? && s.cameras[step.camera] == n then Load(s.cameras, n) - 1
               else Load(s.cameras, n)
    ensures step.Check? ==>
              (step.r in Do(s, step).requests <==> Load(s.cameras, s.requests[step.r].node) < 64)
  {
    match step
    case Insert(r, c) => LoadInsert(s.cameras, c, s.requests[r].node, n);
    case Delete(c) => LoadDelete(s.cameras, c, n);
    case _ =>
  }

  /** Bounded overshoot: with at most `k` requests in flight on a node, whatever interleaves, it never holds
      more than 63 + k cameras. Served one at a time (k = 1) the cap of 64 holds. */
  lemma {:induction false} BoundedOvershoot(s: State, steps: seq<Step>, n: Uuid, k: nat)
    requires k >= 1 && Runs(s, steps) && AtMost(s, steps, n, k)
    requires Committed(s, n) <= 63 + k
    ensures Load(Exec(s, steps).cameras, n) <= 63 + k
    decreases |steps|
  {
    if steps != [] {
      assert AtMost(Do(s, steps[0]), steps[1..], n, k);
      StepCommitted(s, steps[0], n, k);
      BoundedOvershoot(Do(s, steps[0]), steps[1..], n, k);
    }
  }

  // ---- The bound is reached ----

  lemma Fresh(used: set<nat>) returns (x: nat)
    ensures x !in used
  {
    x := Bound(used);
  }

  lemma {:induction false} Bound(used: set<nat>) returns (x: nat)
    ensures forall y | y in used :: y < x
    decreases |used|
  {
    if used == {} {
      x := 0;
    } else {
      var y :| y in used;
      var z := Bound(used - {y});
      x := if z > y then z else y + 1;
      assert forall w | w in used :: w == y || w in used - {y};
    }
  }

  lemma RunCons(s: State, step: Step, rest: seq<Step>, n: Uuid, k: nat)
    requires Enabled(s, step) && Runs(Do(s, step), rest) && AtMost(Do(s, step), rest, n, k)
    requires |InFlight(s, n)| <= k
    ensures Runs(s, [step] + rest) && AtMost(s, [step] + rest, n, k)
    ensures Exec(s, [step] + rest) == Exec(Do(s, step), rest)
  {
    assert ([step] + rest)[1..] == rest;
  }

  /** Every request past its check inserts. */
  lemma {:induction false} InsertAll(s: State, n: Uuid, k: nat) returns (steps: seq<Step>)
    requires InFlight(s, n) == PastCheck(s, n) && |PastCheck(s, n)| <= k
    ensures Runs(s, steps) && AtMost(s, steps, n, k)
    ensures Load(Exec(s, steps).cameras, n) == Committed(s, n)
    decreases |PastCheck(s, n)|
  {
    if PastCheck(s, n) == {} {
      steps := [];
    } else {
      var r :| r in PastCheck(s, n);
      var c := Fresh(s.cameras.Keys);
      var t := Do(s, Insert(r, c));
      assert PastCheck(t, n) == PastCheck(s, n) - {r};
      assert InFlight(t, n) == InFlight(s, n) - {r};
      LoadInsert(s.cameras, c, n, n);
      var rest := InsertAll(t, n, k);
      RunCons(s, Insert(r, c), rest, n, k);
      steps := [Insert(r, c)] + rest;
    }
  }

  /** From a node with 63 cameras, `k` overlapping requests all pass the check and all insert. */
  lemma {:induction false} OvershootReached(s: State, n: Uuid, k: nat) returns (steps: seq<Step>)
    requires Load(s.cameras, n) == 63
    requires InFlight(s, n) == PastCheck(s, n) && |PastCheck(s, n)| <= k
    ensures Runs(s, steps) && AtMost(s, steps, n, k)
    ensures Load(Exec(s, steps).cameras, n) == 63 + k
    decreases k - |PastCheck(s, n)|
  {
    if |PastCheck(s, n)| == k {
      steps := InsertAll(s, n, k);
    } else {
      var r := Fresh(s.requests.Keys);
      var s1 := Do(s, Arrive(r, n));
      assert InFlight(s1, n) == InFlight(s, n) + {r};
      var s2 := Do(s1, Check(r));
      assert InFlight(s2, n) == InFlight(s, n) + {r};
      assert PastCheck(s2, n) == PastCheck(s, n) + {r};
      var rest := OvershootReached(s2, n, k);
      RunCons(s1, Check(r), rest, n, k);
      RunCons(s, Arrive(r, n), [Check(r)] + rest, n, k);
      steps := [Arrive(r, n)] + ([Check(r)] + rest);
    }
  }
}
