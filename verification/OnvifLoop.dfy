/** The pull-point subscription loop (node/src/events/onvif.rs). The times at which the camera receives a
    request and the time until its reply are free within the client's bound. */
module OnvifLoop {
  import opened EventRate

  const TIMEOUT: nat := 8 * SECOND
  const POLL_INTERVAL: nat := 3 * SECOND
  const RENEW_INTERVAL: nat := 480 * SECOND
  const TERM: nat := 600 * SECOND

  /** A request: how long after its start the camera receives it, and how long it takes in all. */
  datatype Exchange = Exchange(receipt: nat, took: nat)

  predicate Bounded(x: Exchange) {
    x.receipt <= x.took <= TIMEOUT
  }

  /** What becomes of a Renew. The client only looks for a transport error, so an error reply from the camera
      counts as success for it. */
  datatype Renewal =
    | Accepted(x: Exchange)
    | Rejected(x: Exchange)
    | Failed(x: Exchange)

  /** One turn of the loop whose pull succeeds; `renewal` is used when one is due. */
  datatype Turn = Turn(renewal: Renewal, pull: Exchange, motion: bool)

  /** `expiry` is the camera's side of the subscription, `lastRenew` the client's variable. */
  datatype State = State(detector: Detector, lastRenew: int, expiry: int)

  predicate BoundedTurn(t: Turn) {
    Bounded(t.renewal.x) && Bounded(t.pull)
  }

  predicate Due(s: State) {
    s.detector.now - s.lastRenew >= RENEW_INTERVAL
  }

  /** CreatePullPointSubscription with InitialTerminationTime PT600S. */
  function Subscribed(start: int, events: seq<int>, create: Exchange): State {
    State(Entered(start + create.took, events), start + create.took, start + create.receipt + TERM)
  }

  function Renewed(s: State, r: Renewal): State {
    var done := Elapse(s.detector, r.x.took);
    match r
    case Accepted(x) => State(done, done.now, s.detector.now + x.receipt + TERM)
    case Rejected(_) => State(done, done.now, s.expiry)
    case Failed(_) => State(done, s.lastRenew, s.expiry)
  }

  /** The state at the next loop head. */
  function Next(s: State, t: Turn): State {
    var r := if Due(s) then Renewed(s, t.renewal) else s;
    r.(detector := Elapse(Observe(Elapse(r.detector, t.pull.took), t.motion), POLL_INTERVAL))
  }

  function After(s: State, turns: seq<Turn>): State {
    if turns == [] then s else Next(After(s, turns[..|turns| - 1]), turns[|turns| - 1])
  }

  /** The body of `subscribe_and_poll` after the subscription is made, for as many turns as pulls succeed. */
  method PollLoop(s: State, turns: seq<Turn>) returns (s': State)
    ensures s' == After(s, turns)
  {
    var clock, lastMotion, lastRenew := s.detector.now, s.detector.lastEvent, s.lastRenew;
    var expiry, events := s.expiry, s.detector.events;
    var i := 0;
    while i < |turns|
      invariant 0 <= i <= |turns|
      invariant State(Detector(clock, lastMotion, events), lastRenew, expiry) == After(s, turns[..i])
    {
      var t := turns[i];
      assert turns[..i + 1][..i] == turns[..i];
      if clock - lastRenew >= RENEW_INTERVAL {
        if t.renewal.Accepted? {
          expiry := clock + t.renewal.x.receipt + TERM;
        }
        clock := clock + t.renewal.x.took;
        if !t.renewal.Failed? {
          lastRenew := clock;
        }
      }
      clock := clock + t.pull.took;
      if t.motion && clock - lastMotion >= COOLDOWN {
        lastMotion := clock;
        events := events + [clock];
      }
      clock := clock + POLL_INTERVAL;
      i := i + 1;
    }
    assert turns[..i] == turns;
    s' := State(Detector(clock, lastMotion, events), lastRenew, expiry);
  }

  // ---- One turn in plain figures ----

  /** A renewal is due 480 s after the last; it and the pull take their time; a pull that shows motion raises an
      event at its reply exactly if the last one is 10 s old; then 3 s of sleep. An accepted renewal runs for 600 s
      from its receipt, and any answered one counts as the last. */
  lemma TurnExact(s: State, t: Turn)
    ensures var d, u := s.detector, Next(s, t);
            var due := d.now - s.lastRenew >= 480_000_000_000;
            var renewed := d.now + (if due then t.renewal.x.took else 0);
            var reply := renewed + t.pull.took;
            var raised := t.motion && reply - d.lastEvent >= 10_000_000_000;
            && u.detector.events == d.events + (if raised then [reply] else [])
            && u.detector.lastEvent == (if raised then reply else d.lastEvent)
            && u.detector.now == reply + 3_000_000_000
            && u.lastRenew == (if due && !t.renewal.Failed? then renewed else s.lastRenew)
            && u.expiry == (if due && t.renewal.Accepted? then d.now + t.renewal.x.receipt + 600_000_000_000 else s.expiry)
  {
    var r := if Due(s) then Renewed(s, t.renewal) else s;
    ObserveExact(Elapse(r.detector, t.pull.took), t.motion);
  }

  /** When the reply of turn `i` comes, as a sum of durations. */
  function ReplyAt(s: State, t: Turn): int {
    s.detector.now + (if s.detector.now - s.lastRenew >= 480_000_000_000 then t.renewal.x.took else 0) + t.pull.took
  }

  /** Turn i raises an event exactly if its pull shows motion and the last event is 10 s old at the reply; it comes at
      the reply, and nothing else raises one. */
  lemma EventAtIff(s: State, turns: seq<Turn>, i: nat)
    requires i < |turns|
    ensures var before, after := After(s, turns[..i]).detector, After(s, turns[..i + 1]).detector;
            var reply := ReplyAt(After(s, turns[..i]), turns[i]);
            && (after.events == before.events + [reply] || after.events == before.events)
            && (after.events != before.events <==> turns[i].motion && reply - before.lastEvent >= 10_000_000_000)
            && after.lastEvent == (if after.events != before.events then reply else before.lastEvent)
  {
    assert turns[..i + 1][..i] == turns[..i];
    TurnExact(After(s, turns[..i]), turns[i]);
  }

  lemma {:induction false} TurnsInCall(s: State, turns: seq<Turn>, entered: int, before: seq<int>)
    requires InCall(s.detector, entered, before)
    ensures InCall(After(s, turns).detector, entered, before)
    decreases |turns|
  {
    if turns != [] {
      TurnsInCall(s, turns[..|turns| - 1], entered, before);
      TurnInCall(After(s, turns[..|turns| - 1]), turns[|turns| - 1], entered, before);
    }
  }

  lemma TurnInCall(s: State, t: Turn, entered: int, before: seq<int>)
    requires InCall(s.detector, entered, before)
    ensures InCall(Next(s, t).detector, entered, before)
    ensures t.motion ==> Covered(Next(s, t).detector, before, ReplyAt(s, t))
  {
    var r := if Due(s) then Renewed(s, t.renewal) else s;
    ElapseInCall(s.detector, t.renewal.x.took, entered, before);
    ElapseInCall(r.detector, t.pull.took, entered, before);
    ObserveCovers(Elapse(r.detector, t.pull.took), t.motion, entered, before);
    ElapseInCall(Observe(Elapse(r.detector, t.pull.took), t.motion), POLL_INTERVAL, entered, before);
  }

  /** No motion goes unreported: over a whole call, every reply with motion has an event of this call at it or less
      than 10 s before it. */
  lemma MotionReported(start: int, events: seq<int>, create: Exchange, turns: seq<Turn>, i: nat)
    requires i < |turns| && turns[i].motion
    ensures var s := Subscribed(start, events, create);
            Covered(After(s, turns[..i + 1]).detector, events, ReplyAt(After(s, turns[..i]), turns[i]))
  {
    var s := Subscribed(start, events, create);
    TurnsInCall(s, turns[..i], start + create.took, events);
    assert turns[..i + 1][..i] == turns[..i];
    TurnInCall(After(s, turns[..i]), turns[i], start + create.took, events);
  }

  // ---- The subscription never lapses ----

  /** Both requests of the turn reach the camera before the subscription ends. */
  predicate InTime(s: State, t: Turn) {
    && (Due(s) ==> s.detector.now + t.renewal.x.receipt < s.expiry)
    && var r := if Due(s) then Renewed(s, t.renewal) else s;
       r.detector.now + t.pull.receipt < r.expiry
  }

  /** The number of failed renewals since the last one that went through. */
  function Failures(s: State, turns: seq<Turn>): nat {
    if turns == [] then 0
    else
      var before := turns[..|turns| - 1];
      if !Due(After(s, before)) then Failures(s, before)
      else if turns[|turns| - 1].renewal.Failed? then Failures(s, before) + 1
      else 0
  }

  /** Turns within the client's bounds, no renewal rejected, at most four renewals failing in a row. */
  ghost predicate Tolerable(s: State, turns: seq<Turn>) {
    && (forall t | t in turns :: BoundedTurn(t) && !t.renewal.Rejected?)
    && forall i | 0 <= i <= |turns| :: Failures(s, turns[..i]) <= 4
  }

  /** The margin at a loop head after `f` failures in a row. */
  predicate Margin(s: State, f: nat) {
    && s.expiry >= s.lastRenew + TERM - TIMEOUT
    && s.detector.now - s.lastRenew < RENEW_INTERVAL + TIMEOUT + POLL_INTERVAL + f * (2 * TIMEOUT + POLL_INTERVAL)
    && (f > 0 ==> Due(s))
  }

  lemma {:induction false} MarginKept(s: State, turns: seq<Turn>)
    requires Margin(s, 0) && Tolerable(s, turns)
    ensures Margin(After(s, turns), Failures(s, turns))
    decreases |turns|
  {
    if turns != [] {
      var before, t := turns[..|turns| - 1], turns[|turns| - 1];
      TolerablePrefix(s, turns, |before|);
      MarginKept(s, before);
      assert t in turns;
      MarginStep(After(s, before), Failures(s, before), t);
    }
  }

  lemma MarginStep(s: State, f: nat, t: Turn)
    requires Margin(s, f) && BoundedTurn(t) && !t.renewal.Rejected?
    ensures Margin(Next(s, t), if !Due(s) then f else if t.renewal.Failed? then f + 1 else 0)
  {
  }

  /** Subscription never lapses: every renewal and every pull of every turn reaches the camera in time, also
      through up to four consecutive failed renewals. */
  lemma NeverLapses(start: int, events: seq<int>, create: Exchange, turns: seq<Turn>, i: nat)
    requires Bounded(create) && i < |turns| && Tolerable(Subscribed(start, events, create), turns)
    ensures InTime(After(Subscribed(start, events, create), turns[..i]), turns[i])
  {
    var s := Subscribed(start, events, create);
    TolerablePrefix(s, turns, i);
    TolerablePrefix(s, turns, i + 1);
    MarginKept(s, turns[..i]);
    assert turns[..i + 1][..i] == turns[..i];
    MarginSuffices(After(s, turns[..i]), Failures(s, turns[..i]), turns[i]);
  }

  lemma TolerablePrefix(s: State, turns: seq<Turn>, n: nat)
    requires Tolerable(s, turns) && n <= |turns|
    ensures Tolerable(s, turns[..n]) && Failures(s, turns[..n]) <= 4
  {
    assert forall j | 0 <= j <= n :: turns[..n][..j] == turns[..j];
  }

  lemma MarginSuffices(s: State, f: nat, t: Turn)
    requires Margin(s, f) && f <= 4 && BoundedTurn(t) && !t.renewal.Rejected?
    requires Due(s) && t.renewal.Failed? ==> f + 1 <= 4
    ensures InTime(s, t)
  {
  }

  // ---- Four is the limit ----

  /** A turn in which everything takes as long as it may. */
  function Slow(renewal: Renewal): Turn {
    Turn(renewal, Exchange(TIMEOUT, TIMEOUT), false)
  }

  const Lost := Slow(Failed(Exchange(TIMEOUT, TIMEOUT)))

  /** `turns` followed by n slow turns whose renewal, if one is due, fails. */
  function Losing(turns: seq<Turn>, n: nat): seq<Turn> {
    if n == 0 then turns else Losing(turns, n - 1) + [Lost]
  }

  lemma Snoc(s: State, turns: seq<Turn>, t: Turn)
    ensures After(s, turns + [t]) == Next(After(s, turns), t)
    ensures Failures(s, turns + [t]) == if !Due(After(s, turns)) then Failures(s, turns)
                                        else if t.renewal.Failed? then Failures(s, turns) + 1 else 0
  {
    assert (turns + [t])[..|turns|] == turns;
  }

  /** `turns` lead from `s` to `u` with `f` failed renewals in a row at the end. */
  ghost predicate Leads(s: State, turns: seq<Turn>, u: State, f: nat) {
    After(s, turns) == u && Failures(s, turns) == f
  }

  /** A turn of 11 s for each of n, as long as no renewal is due. */
  lemma {:induction false} QuietTurns(s: State, n: nat)
    requires s.detector.now + (TIMEOUT + POLL_INTERVAL) * n < s.lastRenew + RENEW_INTERVAL + TIMEOUT + POLL_INTERVAL
    ensures Leads(s, Losing([], n), s.(detector := Elapse(s.detector, (TIMEOUT + POLL_INTERVAL) * n)), 0)
    ensures forall t | t in Losing([], n) :: t == Lost
    decreases n
  {
    if n > 0 {
      QuietTurns(s, n - 1);
      Snoc(s, Losing([], n - 1), Lost);
    }
  }

  /** A turn of 19 s once a renewal is due and fails. */
  lemma LostTurn(s: State, turns: seq<Turn>) returns (more: seq<Turn>)
    requires Due(After(s, turns))
    ensures more == turns + [Lost]
    ensures var u, v := After(s, turns), After(s, more);
            && v.detector.now == u.detector.now + 19 * SECOND
            && v.lastRenew == u.lastRenew && v.expiry == u.expiry && Due(v)
    ensures Failures(s, more) == Failures(s, turns) + 1
  {
    more := turns + [Lost];
    Snoc(s, turns, Lost);
  }

  /** Forty-three slow turns, one that ends just before a renewal is due, and a slow one. */
  lemma JustDue() returns (turns: seq<Turn>)
    ensures var u := After(Subscribed(0, [], Exchange(0, TIMEOUT)), turns);
            u.lastRenew == TIMEOUT && u.expiry == TERM && u.detector.now == 499 * SECOND - 1
    ensures Failures(Subscribed(0, [], Exchange(0, TIMEOUT)), turns) == 0
    ensures forall t | t in turns :: BoundedTurn(t) && !t.renewal.Rejected?
  {
    var short := Turn(Lost.renewal, Exchange(0, 4 * SECOND - 1), false);
    var s := Subscribed(0, [], Exchange(0, TIMEOUT));
    var a := Losing([], 43);
    QuietTurns(s, 43);
    Snoc(s, a, short);
    Snoc(s, a + [short], Lost);
    turns := a + [short] + [Lost];
  }

  /** With five failed renewals in a row the sixth can come too late: every exchange within its bound, the
      subscription received at once, and yet the renewal reaches the camera after the term. */
  lemma FiveFailuresMayLapse() returns (create: Exchange, turns: seq<Turn>, last: Turn)
    ensures Bounded(create) && BoundedTurn(last) && forall t | t in turns :: BoundedTurn(t) && !t.renewal.Rejected?
    ensures !InTime(After(Subscribed(0, [], create), turns), last)
    ensures Failures(Subscribed(0, [], create), turns) == 5
  {
    create := Exchange(0, TIMEOUT);
    last := Slow(Accepted(Exchange(TIMEOUT, TIMEOUT)));
    var s := Subscribed(0, [], create);
    turns := JustDue();
    turns := LostTurn(s, turns);
    turns := LostTurn(s, turns);
    turns := LostTurn(s, turns);
    turns := LostTurn(s, turns);
    turns := LostTurn(s, turns);
  }

  /** A renewal the camera rejects is taken for a success: whatever follows, when the next one is due the
      subscription has already ended. */
  lemma RejectedRenewalLapses(s: State, t: Turn, turns: seq<Turn>)
    requires Due(s) && t.renewal.Rejected? && s.expiry <= s.lastRenew + TERM
    requires forall i | 0 <= i < |turns| :: !Due(After(Next(s, t), turns[..i]))
    ensures var u := After(Next(s, t), turns); u.expiry == s.expiry && (Due(u) ==> u.detector.now >= u.expiry)
  {
    var u := Next(s, t);
    QuietKeeps(u, turns);
  }

  lemma {:induction false} QuietKeeps(s: State, turns: seq<Turn>)
    requires forall i | 0 <= i < |turns| :: !Due(After(s, turns[..i]))
    ensures After(s, turns).expiry == s.expiry && After(s, turns).lastRenew == s.lastRenew
    decreases |turns|
  {
    if turns != [] {
      var before := turns[..|turns| - 1];
      assert forall i | 0 <= i < |before| :: before[..i] == turns[..i];
      QuietKeeps(s, before);
    }
  }

  /** The camera's side moves only when it accepts a renewal: without one `expiry` stays, over any number of turns. */
  lemma {:induction false} ExpiryStays(s: State, turns: seq<Turn>)
    requires forall i | 0 <= i < |turns| && Due(After(s, turns[..i])) :: !turns[i].renewal.Accepted?
    ensures After(s, turns).expiry == s.expiry && After(s, turns).detector.now >= s.detector.now
    decreases |turns|
  {
    if turns != [] {
      var before := turns[..|turns| - 1];
      assert forall i | 0 <= i < |before| :: before[..i] == turns[..i];
      ExpiryStays(s, before);
    }
  }

  /** A subscription that has ended is never made anew while the camera answers: pulls that succeed with an error
      reply keep the loop going, and if the camera accepts no renewal of what has ended, no later pull is in time. */
  lemma LapsedForever(s: State, turns: seq<Turn>, i: nat)
    requires s.detector.now >= s.expiry && i < |turns|
    requires forall j | 0 <= j < |turns| && Due(After(s, turns[..j])) :: !turns[j].renewal.Accepted?
    ensures !InTime(After(s, turns[..i]), turns[i])
  {
    assert forall j | 0 <= j < i :: turns[..i][..j] == turns[..j];
    ExpiryStays(s, turns[..i]);
  }

  // ---- Event rate over a whole task ----

  /** One call of `subscribe_and_poll`: the subscription attempt, the turns, and the pull that ends it. */
  datatype Call = Call(create: Exchange, created: bool, turns: seq<Turn>, lastPull: nat)

  function Called(d: Detector, c: Call): Detector {
    if !c.created then Elapse(d, c.create.took)
    else Elapse(After(Subscribed(d.now, d.events, c.create), c.turns).detector, c.lastPull)
  }

  /** A call exactly: a subscription that fails costs its time; otherwise the turns, then the pull that fails. */
  lemma CalledExact(d: Detector, c: Call)
    ensures !c.created ==> Called(d, c) == Detector(d.now + c.create.took, d.lastEvent, d.events)
    ensures c.created ==>
              var e := After(Subscribed(d.now, d.events, c.create), c.turns).detector;
              Called(d, c) == Detector(e.now + c.lastPull, e.lastEvent, e.events)
  {
  }

  lemma NextInv(s: State, t: Turn)
    requires Inv(s.detector)
    ensures Inv(Next(s, t).detector)
  {
    var r := if Due(s) then Renewed(s, t.renewal) else s;
    ElapseInv(s.detector, t.renewal.x.took);
    ElapseInv(r.detector, t.pull.took);
    ObserveInv(Elapse(r.detector, t.pull.took), t.motion);
    ElapseInv(Observe(Elapse(r.detector, t.pull.took), t.motion), POLL_INTERVAL);
  }

  lemma {:induction false} TurnsInv(s: State, turns: seq<Turn>)
    requires Inv(s.detector)
    ensures Inv(After(s, turns).detector)
    decreases |turns|
  {
    if turns != [] {
      TurnsInv(s, turns[..|turns| - 1]);
      NextInv(After(s, turns[..|turns| - 1]), turns[|turns| - 1]);
    }
  }

  /** Event rate: through any number of errors and new subscriptions any window of `width` holds at most
      floor(width / 10 s) + 1 events. */
  lemma EventRateBound(start: int, calls: seq<Call>, from: int, width: nat)
    ensures |InWindow(Task(start, calls, Called).events, from, width)| <= width / COOLDOWN + 1
  {
    forall d, c | Rested(d) ensures Inv(Called(d, c)) {
      TurnsInv(Subscribed(d.now, d.events, c.create), c.turns);
    }
    TaskRate(start, calls, Called, from, width);
  }

  lemma {:induction false} EventsGrow(s: State, turns: seq<Turn>, n: nat)
    requires n <= |turns|
    ensures After(s, turns[..n]).detector.events <= After(s, turns).detector.events
    decreases |turns|
  {
    if n < |turns| {
      var init := turns[..|turns| - 1];
      assert init[..n] == turns[..n];
      EventsGrow(s, init, n);
      TurnExact(After(s, init), turns[|turns| - 1]);
    } else {
      assert turns[..n] == turns;
    }
  }

  lemma CalledGrows(d: Detector, c: Call)
    ensures d.events <= Called(d, c).events
  {
    if c.created {
      EventsGrow(Subscribed(d.now, d.events, c.create), c.turns, 0);
    }
  }

  /** And over a whole task: whichever call it came in, a reply with motion has an event of that call at it or less
      than 10 s before it among the events of the task. */
  lemma MotionReportedInTask(start: int, calls: seq<Call>, j: nat, i: nat)
    requires j < |calls| && calls[j].created && i < |calls[j].turns| && calls[j].turns[i].motion
    ensures var d, c := Task(start, calls[..j], Called), calls[j];
            Covered(Task(start, calls, Called), d.events,
                    ReplyAt(After(Subscribed(d.now, d.events, c.create), c.turns[..i]), c.turns[i]))
  {
    var d, c := Task(start, calls[..j], Called), calls[j];
    var s := Subscribed(d.now, d.events, c.create);
    MotionReported(d.now, d.events, c.create, c.turns, i);
    EventsGrow(s, c.turns, i + 1);
    var time := ReplyAt(After(s, c.turns[..i]), c.turns[i]);
    StillCovered(After(s, c.turns[..i + 1]).detector, Called(d, c), d.events, time);
    forall d: Detector, c: Call ensures d.events <= Called(d, c).events {
      CalledGrows(d, c);
    }
    CoveredInTask(start, calls, Called, j, time);
  }
}
