/** The double-buffered frame differ (node/src/events/diff.rs). */
module FrameDiffer {
  import opened Common
  import opened EventRate

  const WIDTH: nat := 160
  const HEIGHT: nat := 90
  const FRAME_BYTES: nat := WIDTH * HEIGHT

  type Frame = f: seq<byte> | |f| == FRAME_BYTES witness seq(FRAME_BYTES, i => 0)

  // ---- The distance of two frames ----

  function AbsDiff(x: byte, y: byte): nat {
    if x >= y then x as int - y as int else y as int - x as int
  }

  /** The sum of `frame_diff`, over the shorter of the two. */
  function Sad(a: seq<byte>, b: seq<byte>): nat {
    if a == [] || b == [] then 0 else AbsDiff(a[0], b[0]) + Sad(a[1..], b[1..])
  }

  /** Two bytes are as far apart as the larger is above the smaller. */
  lemma SadOne(x: byte, y: byte)
    ensures Sad([x], [y]) == (if x as int >= y as int then x as int - y as int else y as int - x as int)
  {
    assert [x][1..] == [] && [y][1..] == [];
  }

  /** The distance is added up over parts of equal length. */
  lemma {:induction false} SadConcat(a: seq<byte>, b: seq<byte>, a': seq<byte>, b': seq<byte>)
    requires |a| == |b|
    ensures Sad(a + a', b + b') == Sad(a, b) + Sad(a', b')
  {
    if a == [] {
      assert a + a' == a' && b + b' == b';
    } else {
      assert (a + a')[1..] == a[1..] + a' && (b + b')[1..] == b[1..] + b';
      SadConcat(a[1..], b[1..], a', b');
    }
  }

  /** Replacing one byte moves the sum by the difference at its place. */
  lemma SadReplace(a: seq<byte>, b: seq<byte>, i: nat, v: byte)
    requires |a| == |b| && i < |a|
    ensures Sad(a[i := v], b) == Sad(a, b) - Sad([a[i]], [b[i]]) + Sad([v], [b[i]])
  {
    SadAround(a, b, i);
    SadAround(a[i := v], b, i);
    assert a[i := v][..i] == a[..i] && a[i := v][i + 1..] == a[i + 1..];
  }

  lemma SadAround(a: seq<byte>, b: seq<byte>, i: nat)
    requires |a| == |b| && i < |a|
    ensures Sad(a, b) == Sad(a[..i], b[..i]) + Sad([a[i]], [b[i]]) + Sad(a[i + 1..], b[i + 1..])
  {
    assert a == a[..i] + ([a[i]] + a[i + 1..]) && b == b[..i] + ([b[i]] + b[i + 1..]);
    SadConcat(a[..i], b[..i], [a[i]] + a[i + 1..], [b[i]] + b[i + 1..]);
    SadConcat([a[i]], [b[i]], a[i + 1..], b[i + 1..]);
  }

  /** The greatest distance is that of black against white at every place. */
  lemma {:induction false} SadMaxIff(a: seq<byte>, b: seq<byte>)
    requires |a| == |b|
    ensures Sad(a, b) == 255 * |a| <==> forall i | 0 <= i < |a| :: {a[i], b[i]} == {0, 255}
  {
    if a != [] {
      SadMaxIff(a[1..], b[1..]);
      SadBound(a[1..], b[1..]);
      assert AbsDiff(a[0], b[0]) == 255 <==> {a[0], b[0]} == {0, 255} by {
        FarApart(a[0], b[0]);
      }
      assert forall i | 1 <= i < |a| :: a[i] == a[1..][i - 1] && b[i] == b[1..][i - 1];
    }
  }

  lemma FarApart(x: byte, y: byte)
    ensures AbsDiff(x, y) == 255 <==> {x, y} == {0, 255}
  {
    assert x in {x, y} && y in {x, y};
    assert {x, y} == {0, 255} ==> (x == 0 || x == 255) && 0 in {x, y} && 255 in {x, y};
  }

  lemma {:induction false} SadBound(a: seq<byte>, b: seq<byte>)
    requires |a| == |b|
    ensures Sad(a, b) <= 255 * |a|
  {
    if a != [] {
      SadBound(a[1..], b[1..]);
    }
  }

  lemma {:induction false} SadSymmetric(a: seq<byte>, b: seq<byte>)
    ensures Sad(a, b) == Sad(b, a)
  {
    if a != [] && b != [] {
      SadSymmetric(a[1..], b[1..]);
    }
  }

  lemma {:induction false} SadTriangle(a: seq<byte>, b: seq<byte>, c: seq<byte>)
    requires |a| == |b| == |c|
    ensures Sad(a, c) <= Sad(a, b) + Sad(b, c)
  {
    if a != [] {
      SadTriangle(a[1..], b[1..], c[1..]);
    }
  }

  lemma {:induction false} SadZeroIff(a: seq<byte>, b: seq<byte>)
    requires |a| == |b|
    ensures Sad(a, b) == 0 <==> a == b
  {
    if a != [] {
      SadZeroIff(a[1..], b[1..]);
      assert a == [a[0]] + a[1..] && b == [b[0]] + b[1..];
    }
  }

  /** Frames are at most 3672000 apart, so the sum survives the conversion to f32 unchanged. */
  lemma FrameSadBound(a: Frame, b: Frame)
    ensures Sad(a, b) <= 3_672_000 < 0x100_0000
    ensures Sad(a, b) == 3_672_000 <==> forall i | 0 <= i < |a| :: {a[i], b[i]} == {0, 255}
  {
    SadBound(a, b);
    SadMaxIff(a, b);
  }

  // ---- The score in f32 ----

  /** Rounding to the nearest f32, as far as the comparison needs it: monotone, and off by at most half the
      spacing of f32 values near the threshold. */
  ghost predicate RoundsLikeF32(round: real -> real) {
    && (forall x: real, y: real :: x <= y ==> round(x) <= round(y))
    && forall x: real | 0.0 <= x <= 0.03125 :: -1.0 / 1073741824.0 <= round(x) - x <= 1.0 / 1073741824.0
  }

  function Score(sum: nat, round: real -> real): real {
    round(sum as real / 3672000.0)
  }

  /** `score >= THRESHOLD` with THRESHOLD the f32 nearest to 0.02. */
  predicate OverThreshold(sum: nat, round: real -> real) {
    Score(sum, round) >= round(0.02)
  }

  /** The rounded comparison is an exact one on integers: a sum of at least 73440. */
  lemma ThresholdIff(sum: nat, round: real -> real)
    requires RoundsLikeF32(round)
    ensures OverThreshold(sum, round) <==> sum >= 73440
  {
    var x := sum as real / 3672000.0;
    if sum >= 73440 {
      assert x >= 0.02;
    } else {
      var y := 73439.0 / 3672000.0;
      assert x <= y;
      assert 0.0 <= y <= 0.03125 && 0.0 <= 0.02 <= 0.03125;
      assert round(x) <= round(y) <= y + 1.0 / 1073741824.0 < 0.02 - 1.0 / 1073741824.0 <= round(0.02);
    }
  }

  // ---- The stream and the loop ----

  /** The frame source: how long the read of each frame takes, and the frame. */
  datatype Arrival = Arrival(wait: nat, frame: Frame)

  /** The detector after the stream, said without buffers: frame i is compared with frame i - 1. */
  function Observed(d: Detector, stream: seq<Arrival>): Detector {
    if stream == [] then d
    else
      var n := |stream| - 1;
      var before := Elapse(Observed(d, stream[..n]), stream[n].wait);
      if n == 0 then before
      else Observe(before, Sad(stream[n - 1].frame, stream[n].frame) >= 73440)
  }

  lemma ObservedSnoc(d: Detector, stream: seq<Arrival>, a: Arrival)
    ensures Observed(d, stream + [a]) ==
              var before := Elapse(Observed(d, stream), a.wait);
              if stream == [] then before else Observe(before, Sad(stream[|stream| - 1].frame, a.frame) >= 73440)
  {
    assert (stream + [a])[..|stream|] == stream;
  }

  /** `frame_diff` against the threshold. */
  method Exceeds(a: seq<byte>, b: seq<byte>, round: real -> real) returns (r: bool)
    requires RoundsLikeF32(round)
    ensures r <==> Sad(a, b) >= 73440
  {
    var sum := Sad(a, b);
    ThresholdIff(sum, round);
    r := OverThreshold(sum, round);
  }

  /** `read_exact` into a buffer of a frame's size. */
  method ReadExact(buffer: array<byte>, frame: Frame)
    requires buffer.Length == FRAME_BYTES
    modifies buffer
    ensures buffer[..] == frame
  {
    for i := 0 to FRAME_BYTES
      invariant buffer[..i] == frame[..i]
    {
      buffer[i] := frame[i];
    }
    assert frame[..FRAME_BYTES] == frame;
  }

  /** The two buffers and the loop variables of `diff_loop`. */
  class Differ {
    var prev: array<byte>
    var curr: array<byte>
    var first: bool
    var detector: Detector
    ghost var seen: seq<Arrival>
    ghost var start: Detector
    const round: real -> real

    ghost predicate Valid()
      reads this, prev, curr
    {
      && RoundsLikeF32(round)
      && prev != curr && prev.Length == curr.Length == FRAME_BYTES
      && (first <==> seen == [])
      && (!first ==> prev[..] == seen[|seen| - 1].frame)
      && detector == Observed(start, seen)
    }

    constructor (now: int, events: seq<int>, round: real -> real)
      requires RoundsLikeF32(round)
      ensures Valid() && fresh(prev) && fresh(curr) && seen == [] && start == Entered(now, events) && this.round == round
    {
      prev := new byte[FRAME_BYTES](i => 0);
      curr := new byte[FRAME_BYTES](i => 0);
      first := true;
      detector, start := Entered(now, events), Entered(now, events);
      seen := [];
      this.round := round;
    }

    /** One turn: read into `curr`, compare with `prev`, swap the buffers. An event is sent exactly if this is
        not the first frame, it differs enough from the one before, and the cooldown has passed. */
    method Turn(a: Arrival) returns (event: bool)
      requires Valid()
      modifies this, prev, curr
      ensures Valid() && prev == old(curr) && curr == old(prev)
      ensures seen == old(seen) + [a] && start == old(start)
      ensures event <==> old(seen) != [] && Sad(old(seen)[|old(seen)| - 1].frame, a.frame) >= 73440
                         && old(detector.now) + a.wait - old(detector.lastEvent) >= COOLDOWN
      ensures detector.events == old(detector.events) + (if event then [old(detector.now) + a.wait] else [])
    {
      ReadExact(curr, a.frame);
      detector := Elapse(detector, a.wait);
      event := false;
      if !first {
        var differs := Exceeds(prev[..], curr[..], round);
        if differs && detector.now - detector.lastEvent >= COOLDOWN {
          detector := detector.(lastEvent := detector.now, events := detector.events + [detector.now]);
          event := true;
        }
      }
      prev, curr := curr, prev;
      first := false;
      seen := seen + [a];
      ObservedSnoc(start, old(seen), a);
    }

    /** `diff_loop` over the frames until the source fails. */
    method Loop(stream: seq<Arrival>)
      requires Valid() && seen == []
      modifies this, prev, curr
      ensures Valid() && detector == Observed(old(start), stream)
    {
      var i := 0;
      while i < |stream|
        invariant 0 <= i <= |stream|
        invariant Valid() && {prev, curr} == old({prev, curr})
        invariant seen == stream[..i] && start == old(start)
      {
        assert stream[..i + 1] == stream[..i] + [stream[i]];
        var _ := Turn(stream[i]);
        i := i + 1;
      }
      assert stream[..i] == stream;
    }
  }

  /** Frame i raises an event exactly if it differs enough from frame i - 1 and the cooldown has passed; nothing
      else ever does. */
  lemma EventAtIff(d: Detector, stream: seq<Arrival>, i: nat)
    requires i < |stream|
    ensures var before, after := Observed(d, stream[..i]), Observed(d, stream[..i + 1]);
            var now := before.now + stream[i].wait;
            && after.now == now
            && (after.events == before.events + [now] || after.events == before.events)
            && (after.events != before.events <==>
                  i > 0 && Sad(stream[i - 1].frame, stream[i].frame) >= 73440 && now - before.lastEvent >= COOLDOWN)
  {
    assert stream[..i + 1][..i] == stream[..i];
  }

  lemma {:induction false} ObservedInCall(d: Detector, stream: seq<Arrival>, entered: int, before: seq<int>)
    requires InCall(d, entered, before)
    ensures InCall(Observed(d, stream), entered, before)
    ensures |stream| >= 2 && Sad(stream[|stream| - 2].frame, stream[|stream| - 1].frame) >= 73440 ==>
              Covered(Observed(d, stream), before, Observed(d, stream).now)
    decreases |stream|
  {
    if stream != [] {
      var n := |stream| - 1;
      ObservedInCall(d, stream[..n], entered, before);
      ElapseInCall(Observed(d, stream[..n]), stream[n].wait, entered, before);
      if n > 0 {
        ObserveCovers(Elapse(Observed(d, stream[..n]), stream[n].wait),
                      Sad(stream[n - 1].frame, stream[n].frame) >= 73440, entered, before);
      }
    }
  }

  /** No change goes unreported: over a whole call, every frame that differs enough from the one before has an event
      of this call at its arrival or less than 10 s before it. */
  lemma ChangeReported(now: int, events: seq<int>, stream: seq<Arrival>, i: nat)
    requires 1 <= i < |stream| && Sad(stream[i - 1].frame, stream[i].frame) >= 73440
    ensures var d := Observed(Entered(now, events), stream[..i + 1]); Covered(d, events, d.now)
  {
    ObservedInCall(Entered(now, events), stream[..i + 1], now, events);
  }

  // ---- Event rate over a whole task ----

  /** One call of `diff_loop`: starting FFmpeg takes `startup`, then frames arrive, then a read fails. */
  datatype Call = Call(startup: nat, stream: seq<Arrival>, lastRead: nat)

  function Called(d: Detector, c: Call): Detector {
    Elapse(Observed(Entered(d.now + c.startup, d.events), c.stream), c.lastRead)
  }

  /** A call exactly: the time FFmpeg takes to start, the frames, then the read that fails. */
  lemma CalledExact(d: Detector, c: Call)
    ensures var e := Observed(Entered(d.now + c.startup, d.events), c.stream);
            Called(d, c) == Detector(e.now + c.lastRead, e.lastEvent, e.events)
  {
  }

  lemma {:induction false} ObservedInv(d: Detector, stream: seq<Arrival>)
    requires Inv(d)
    ensures Inv(Observed(d, stream))
    decreases |stream|
  {
    if stream != [] {
      var n := |stream| - 1;
      ObservedInv(d, stream[..n]);
      if n > 0 {
        ObserveInv(Elapse(Observed(d, stream[..n]), stream[n].wait), Sad(stream[n - 1].frame, stream[n].frame) >= 73440);
      }
    }
  }

  /** Event rate: the same bound through any number of failing streams. */
  lemma EventRateBound(start: int, calls: seq<Call>, from: int, width: nat)
    ensures |InWindow(Task(start, calls, Called).events, from, width)| <= width / COOLDOWN + 1
  {
    forall d, c | Rested(d) ensures Inv(Called(d, c)) {
      ObservedInv(Entered(d.now + c.startup, d.events), c.stream);
    }
    TaskRate(start, calls, Called, from, width);
  }

  lemma {:induction false} EventsGrow(d: Detector, stream: seq<Arrival>, n: nat)
    requires n <= |stream|
    ensures Observed(d, stream[..n]).events <= Observed(d, stream).events
    decreases |stream|
  {
    if n < |stream| {
      var init := stream[..|stream| - 1];
      assert init[..n] == stream[..n];
      EventsGrow(d, init, n);
      ObserveExact(Elapse(Observed(d, init), stream[|init|].wait), |init| > 0 && Sad(stream[|init| - 1].frame, stream[|init|].frame) >= 73440);
    } else {
      assert stream[..n] == stream;
    }
  }

  /** And over a whole task: a frame that differs enough from the one before in the same call has an event of that
      call among the events of the task. */
  lemma ChangeReportedInTask(start: int, calls: seq<Call>, j: nat, i: nat)
    requires j < |calls| && 1 <= i < |calls[j].stream|
    requires Sad(calls[j].stream[i - 1].frame, calls[j].stream[i].frame) >= 73440
    ensures var d, c := Task(start, calls[..j], Called), calls[j];
            Covered(Task(start, calls, Called), d.events,
                    Observed(Entered(d.now + c.startup, d.events), c.stream[..i + 1]).now)
  {
    var d, c := Task(start, calls[..j], Called), calls[j];
    ChangeReportedInCall(d, c, i);
    forall d: Detector, c: Call ensures d.events <= Called(d, c).events {
      EventsGrow(Entered(d.now + c.startup, d.events), c.stream, 0);
    }
    CoveredInTask(start, calls, Called, j, Observed(Entered(d.now + c.startup, d.events), c.stream[..i + 1]).now);
  }

  lemma ChangeReportedInCall(d: Detector, c: Call, i: nat)
    requires 1 <= i < |c.stream| && Sad(c.stream[i - 1].frame, c.stream[i].frame) >= 73440
    ensures Covered(Called(d, c), d.events, Observed(Entered(d.now + c.startup, d.events), c.stream[..i + 1]).now)
  {
    var e, all := Entered(d.now + c.startup, d.events), c.stream;
    ChangeReported(d.now + c.startup, d.events, all, i);
    EventsGrow(e, all, i + 1);
    var seen := Observed(e, all[..i + 1]);
    assert Covered(seen, d.events, seen.now);
    assert Called(d, c).events == Observed(e, all).events;
    StillCovered(seen, Called(d, c), d.events, seen.now);
  }
}
