/** Replaying a log of camera messages on one camera. The algebra behind the convergence proof. */
module ReplayLog {
  import opened Common
  import opened Messages
  import opened CameraList

  type CamState = Option<NodeCameraConfig>

  /** The state of camera `id` after the messages `ms`, in order. */
  function Fold(v: CamState, ms: seq<WsMessage>, id: Uuid): CamState
    decreases |ms|
  {
    if ms == [] then v else Fold(CamApply(v, ms[0], id), ms[1..], id)
  }

  /** The camera a delta is about. */
  function Subject(m: WsMessage): Option<Uuid> {
    match m
    case CameraAdded(c) => Some(c.id)
    case CameraUpdated(c) => Some(c.id)
    case CameraRemoved(id) => Some(id)
    case _ => None
  }

  lemma {:induction false} FoldConcat(v: CamState, a: seq<WsMessage>, b: seq<WsMessage>, id: Uuid)
    ensures Fold(v, a + b, id) == Fold(Fold(v, a, id), b, id)
    decreases |a|
  {
    if a == [] {
      assert a + b == b;
    } else {
      assert (a + b)[1..] == a[1..] + b;
      FoldConcat(CamApply(v, a[0], id), a[1..], b, id);
    }
  }

  lemma FoldSnoc(v: CamState, a: seq<WsMessage>, m: WsMessage, id: Uuid)
    ensures Fold(v, a + [m], id) == CamApply(Fold(v, a, id), m, id)
  {
    FoldConcat(v, a, [m], id);
  }

  lemma FoldCons(v: CamState, m: WsMessage, b: seq<WsMessage>, id: Uuid)
    ensures Fold(v, [m] + b, id) == Fold(CamApply(v, m, id), b, id)
  {
    FoldConcat(v, [m], b, id);
  }

  /** Whether the camera is present at the end depends monotonically on whether it was at the start. */
  lemma {:induction false} FoldMonotone(v: CamState, w: CamState, ms: seq<WsMessage>, id: Uuid)
    requires v.Some? ==> w.Some?
    ensures Fold(v, ms, id).Some? ==> Fold(w, ms, id).Some?
    decreases |ms|
  {
    if ms != [] {
      FoldMonotone(CamApply(v, ms[0], id), CamApply(w, ms[0], id), ms[1..], id);
    }
  }

  /** Replaying a log onto the state it produced changes nothing. */
  lemma {:induction false} ReplayIdempotent(v: CamState, ms: seq<WsMessage>, id: Uuid)
    ensures Fold(Fold(v, ms, id), ms, id) == Fold(v, ms, id)
    decreases |ms|
  {
    if ms != [] {
      var init, m := ms[..|ms| - 1], ms[|ms| - 1];
      assert ms == init + [m];
      var w := Fold(v, ms, id);
      FoldSnoc(v, init, m, id);
      FoldSnoc(w, init, m, id);
      ReplayIdempotent(v, init, id);
      if m.CameraUpdated? && m.updated.id == id {
        var u := Fold(v, init, id);
        if u.Some? {
          FoldMonotone(u, w, init, id);
        } else {
          FoldMonotone(w, v, init, id);
          FoldMonotone(w, u, init, id);
        }
      }
    }
  }

  lemma FoldTwo(v: CamState, x: WsMessage, y: WsMessage, id: Uuid)
    ensures Fold(v, [x, y], id) == CamApply(CamApply(v, x, id), y, id)
  {
    assert [x, y] == [x] + [y];
    FoldCons(v, x, [y], id);
    assert [y] == [y] + [];
    FoldCons(CamApply(v, x, id), y, [], id);
  }

  /** Two deltas whose order does not matter: about different cameras, or equal, or both removals, or a removal and
      an update, or an addition and an update to the same configuration. */
  predicate Harmless(x: WsMessage, y: WsMessage) {
    && Subject(x).Some? && Subject(y).Some?
    && (|| Subject(x) != Subject(y) || x == y
        || (x.CameraRemoved? && !y.CameraAdded?) || (y.CameraRemoved? && !x.CameraAdded?)
        || (x.CameraAdded? && y.CameraUpdated? && x.added == y.updated)
        || (y.CameraAdded? && x.CameraUpdated? && y.added == x.updated))
  }

  lemma HarmlessCommute(x: WsMessage, y: WsMessage, v: CamState, id: Uuid)
    requires Harmless(x, y)
    ensures CamApply(CamApply(v, x, id), y, id) == CamApply(CamApply(v, y, id), x, id)
  {
  }

  lemma OthersDiffer(x: WsMessage, y: WsMessage) returns (v: CamState)
    requires Subject(x).Some? && Subject(y).Some? && !Harmless(x, y)
    ensures var id := Subject(x).value; CamApply(CamApply(v, x, id), y, id) != CamApply(CamApply(v, y, id), x, id)
  {
    v := if x.CameraUpdated? then Some(x.updated) else None;
  }

  /** Two deltas commute, whatever the node holds, exactly if they are harmless. */
  lemma CommuteIff(x: WsMessage, y: WsMessage)
    requires Subject(x).Some? && Subject(y).Some?
    ensures (forall v: CamState, id: Uuid :: Fold(v, [x, y], id) == Fold(v, [y, x], id)) <==> Harmless(x, y)
  {
    if Harmless(x, y) {
      forall v: CamState, id: Uuid ensures Fold(v, [x, y], id) == Fold(v, [y, x], id) {
        FoldTwo(v, x, y, id);
        FoldTwo(v, y, x, id);
        HarmlessCommute(x, y, v, id);
      }
    } else {
      var id := Subject(x).value;
      var v := OthersDiffer(x, y);
      FoldTwo(v, x, y, id);
      FoldTwo(v, y, x, id);
    }
  }

  lemma {:induction false} MoveOver(v: CamState, a: seq<WsMessage>, m: WsMessage, id: Uuid)
    requires forall k | 0 <= k < |a| :: Harmless(a[k], m)
    ensures Fold(v, a + [m], id) == Fold(v, [m] + a, id)
    decreases |a|
  {
    FoldSnoc(v, a, m, id);
    FoldCons(v, m, a, id);
    if a != [] {
      var w := CamApply(v, a[0], id);
      MoveOver(w, a[1..], m, id);
      FoldSnoc(w, a[1..], m, id);
      FoldCons(w, m, a[1..], id);
      HarmlessCommute(a[0], m, v, id);
    }
  }

  /** A delta may overtake earlier deltas that are harmless with it. */
  lemma MoveToFront(v: CamState, a: seq<WsMessage>, m: WsMessage, b: seq<WsMessage>, id: Uuid)
    requires forall k | 0 <= k < |a| :: Harmless(a[k], m)
    ensures Fold(v, a + [m] + b, id) == Fold(v, [m] + a + b, id)
  {
    FoldConcat(v, a + [m], b, id);
    FoldConcat(v, [m] + a, b, id);
    MoveOver(v, a, m, id);
  }

  /** If replaying a log reproduces the current state, so does the log without its first entry. */
  lemma DropFirst(x: CamState, m: WsMessage, b: seq<WsMessage>, id: Uuid)
    requires Fold(x, [m] + b, id) == x
    ensures Fold(x, b, id) == x
  {
    FoldCons(x, m, b, id);
    ReplayIdempotent(CamApply(x, m, id), b, id);
  }
}
