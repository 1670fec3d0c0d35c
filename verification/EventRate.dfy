/** The motion cooldown shared by the ONVIF poller and the frame differ (node/src/events/). Times are in
    nanoseconds of the monotonic clock. */
module EventRate {

  const SECOND: nat := 1_000_000_000
  const COOLDOWN: nat := 10 * SECOND
  const RETRY: nat := 15 * SECOND

  /** `lastEvent` is the variable the loops compare with; `events` are the times at which one was sent. */
  datatype Detector = Detector(now: int, lastEvent: int, events: seq<int>)

  /** Entering the loop: `Instant::now() - COOLDOWN * 2`. */
  function Entered(now: int, events: seq<int>): Detector {
    Detector(now, now - 2 * COOLDOWN, events)
  }

  function Elapse(d: Detector, wait: nat): Detector {
    d.(now := d.now + wait)
  }

  /** One look at the camera. */
  function Observe(d: Detector, motion: bool): Detector {
    if motion && d.now - d.lastEvent >= COOLDOWN then d.(lastEvent := d.now, events := d.events + [d.now]) else d
  }

  /** Events are a cooldown apart, and the loop remembers the last one unless a retry sleep has passed. */
  ghost predicate Inv(d: Detector) {
    && (forall i | 0 <= i < |d.events| - 1 :: d.events[i + 1] - d.events[i] >= COOLDOWN)
    && (d.events != [] ==>
          var last := d.events[|d.events| - 1];
          last <= d.now && (d.lastEvent == last || d.now - last >= RETRY))
  }

  /** Quiet long enough to enter the loop anew without an event coming too early. */
  ghost predicate Rested(d: Detector) {
    Inv(d) && (d.events != [] ==> d.now - d.events[|d.events| - 1] >= RETRY)
  }

  lemma ElapseInv(d: Detector, wait: nat)
    requires Inv(d)
    ensures Inv(Elapse(d, wait))
  {
  }

  lemma ObserveInv(d: Detector, motion: bool)
    requires Inv(d)
    ensures Inv(Observe(d, motion))
  {
  }

  /** The retry sleep after an error is what keeps a fresh cooldown from letting an event through early. */
  lemma RetryRests(d: Detector, wait: nat)
    requires Inv(d)
    ensures Rested(Elapse(Elapse(d, RETRY), wait)) && Inv(Entered(d.now + RETRY + wait, d.events))
  {
  }

  // ---- One call of a loop: no motion goes unreported ----

  /** One look, exactly: with motion and ten seconds since the last event there is an event, now, and else none. */
  lemma ObserveExact(d: Detector, motion: bool)
    ensures var raised := motion && d.now - d.lastEvent >= 10_000_000_000;
            && Observe(d, motion).events == d.events + (if raised then [d.now] else [])
            && Observe(d, motion).lastEvent == (if raised then d.now else d.lastEvent)
            && Observe(d, motion).now == d.now
  {
  }

  /** In a call entered at `entered`, after `before`: the events so far, and the last of them is remembered. */
  ghost predicate InCall(d: Detector, entered: int, before: seq<int>) {
    && before <= d.events && d.lastEvent <= d.now && entered <= d.now
    && (if |d.events| == |before| then d.lastEvent == entered - 20_000_000_000
        else d.lastEvent == d.events[|d.events| - 1])
  }

  /** An event of this call less than ten seconds before `time`, or at it. */
  ghost predicate Covered(d: Detector, before: seq<int>, time: int) {
    exists k :: |before| <= k < |d.events| && time - 10_000_000_000 < d.events[k] <= time
  }

  lemma StillCovered(d: Detector, later: Detector, before: seq<int>, time: int)
    requires Covered(d, before, time) && d.events <= later.events
    ensures Covered(later, before, time)
  {
    var k :| |before| <= k < |d.events| && time - 10_000_000_000 < d.events[k] <= time;
    assert later.events[k] == d.events[k];
  }

  lemma ElapseInCall(d: Detector, wait: nat, entered: int, before: seq<int>)
    requires InCall(d, entered, before)
    ensures InCall(Elapse(d, wait), entered, before) && Elapse(d, wait).now == d.now + wait
    ensures Elapse(d, wait).events == d.events
  {
  }

  lemma ObserveCovers(d: Detector, motion: bool, entered: int, before: seq<int>)
    requires InCall(d, entered, before)
    ensures InCall(Observe(d, motion), entered, before)
    ensures motion ==> Covered(Observe(d, motion), before, d.now)
  {
    ObserveExact(d, motion);
    if motion {
      var events := Observe(d, motion).events;
      assert |before| <= |events| - 1 && d.now - 10_000_000_000 < events[|events| - 1] <= d.now;
    }
  }

  // ---- A task: one call of a loop after the other ----

  /** `run`: call after call, each followed by the retry sleep. `called` is what one call makes of the detector,
      including its reset on entry. */
  function Task<C>(start: int, calls: seq<C>, called: (Detector, C) -> Detector): Detector {
    if calls == [] then Entered(start, [])
    else Elapse(called(Task(start, calls[..|calls| - 1], called), calls[|calls| - 1]), RETRY)
  }

  /** Each call is followed by 15 s of sleep, and keeps its events. */
  lemma TaskSnoc<C>(start: int, calls: seq<C>, c: C, called: (Detector, C) -> Detector)
    ensures var d, t := called(Task(start, calls, called), c), Task(start, calls + [c], called);
            t.now == d.now + 15_000_000_000 && t.events == d.events && t.lastEvent == d.lastEvent
  {
    assert (calls + [c])[..|calls|] == calls;
  }

  /** A loop that may be entered anew after a rest. */
  ghost predicate KeepsPace<C(!new)>(called: (Detector, C) -> Detector) {
    forall d, c :: Rested(d) ==> Inv(called(d, c))
  }

  lemma {:induction false} TaskRested<C(!new)>(start: int, calls: seq<C>, called: (Detector, C) -> Detector)
    requires KeepsPace(called)
    ensures Rested(Task(start, calls, called))
    decreases |calls|
  {
    if calls != [] {
      var before := Task(start, calls[..|calls| - 1], called);
      TaskRested(start, calls[..|calls| - 1], called);
      RetryRests(called(before, calls[|calls| - 1]), 0);
    }
  }

  /** Event rate: through any number of errors and new calls, each of which resets the cooldown, any window of
      `width` holds at most floor(width / 10 s) + 1 events. */
  lemma TaskRate<C(!new)>(start: int, calls: seq<C>, called: (Detector, C) -> Detector, from: int, width: nat)
    requires KeepsPace(called)
    ensures |InWindow(Task(start, calls, called).events, from, width)| <= width / COOLDOWN + 1
  {
    TaskRested(start, calls, called);
    WindowCount(Task(start, calls, called).events, from, width);
  }

  ghost predicate KeepsEvents<C(!new)>(called: (Detector, C) -> Detector) {
    forall d: Detector, c: C :: d.events <= called(d, c).events
  }

  /** What a call reported stays reported. */
  lemma {:induction false} TaskGrows<C(!new)>(start: int, calls: seq<C>, called: (Detector, C) -> Detector, n: nat)
    requires n <= |calls| && KeepsEvents(called)
    ensures Task(start, calls[..n], called).events <= Task(start, calls, called).events
    decreases |calls|
  {
    if n < |calls| {
      var init := calls[..|calls| - 1];
      assert init[..n] == calls[..n];
      TaskGrows(start, init, called, n);
    } else {
      assert calls[..n] == calls;
    }
  }

  /** An event of one call is an event of the whole task. */
  lemma CoveredInTask<C(!new)>(start: int, calls: seq<C>, called: (Detector, C) -> Detector, j: nat, time: int)
    requires j < |calls| && KeepsEvents(called)
    requires Covered(called(Task(start, calls[..j], called), calls[j]), Task(start, calls[..j], called).events, time)
    ensures Covered(Task(start, calls, called), Task(start, calls[..j], called).events, time)
  {
    assert calls[..j + 1][..j] == calls[..j];
    TaskGrows(start, calls, called, j + 1);
    var d, t := called(Task(start, calls[..j], called), calls[j]), Task(start, calls, called);
    var k :| |Task(start, calls[..j], called).events| <= k < |d.events| && time - 10_000_000_000 < d.events[k] <= time;
    assert t.events[k] == d.events[k];
  }

  lemma {:induction false} SpacedOut(events: seq<int>, i: nat, j: nat)
    requires i <= j < |events|
    requires forall k | 0 <= k < |events| - 1 :: events[k + 1] - events[k] >= COOLDOWN
    ensures events[j] - events[i] >= COOLDOWN * (j - i)
    decreases j
  {
    if i < j {
      SpacedOut(events, i, j - 1);
      assert events[j - 1 + 1] - events[j - 1] >= COOLDOWN;
    }
  }

  /** The positions of the events in the window [from, from + width]. */
  function InWindow(events: seq<int>, from: int, width: nat): set<nat> {
    set k | 0 <= k < |events| && from <= events[k] <= from + width
  }

  /** At most n + 1 numbers lie between lo and lo + n. */
  lemma {:induction false} IntervalSize(s: set<nat>, lo: nat, n: nat)
    requires forall k | k in s :: lo <= k <= lo + n
    ensures |s| <= n + 1
    decreases n
  {
    var top := lo + n;
    if n == 0 {
      assert s <= {lo};
      assert s == {} || s == {lo};
    } else {
      IntervalSize(s - {top}, lo, n - 1);
      assert |s| <= |s - {top}| + 1;
    }
  }

  lemma {:induction false} LeastOf(s: set<nat>) returns (lo: nat)
    requires s != {}
    ensures lo in s && forall k | k in s :: lo <= k
    decreases |s|
  {
    lo :| lo in s;
    if s != {lo} {
      assert s - {lo} != {};
      var m := LeastOf(s - {lo});
      assert forall k | k in s :: k == lo || k in s - {lo};
      lo := if m < lo then m else lo;
    }
  }

  lemma WindowCount(events: seq<int>, from: int, width: nat)
    requires forall k | 0 <= k < |events| - 1 :: events[k + 1] - events[k] >= COOLDOWN
    ensures |InWindow(events, from, width)| <= width / COOLDOWN + 1
  {
    var w := InWindow(events, from, width);
    if w != {} {
      var lo := LeastOf(w);
      forall k | k in w ensures lo <= k <= lo + width / COOLDOWN {
        SpacedOut(events, lo, k);
      }
      IntervalSize(w, lo, width / COOLDOWN);
    }
  }
}
