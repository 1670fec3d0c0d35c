/** The hourly retention pass (coordinator/src/retention.rs). */
module RetentionEnforcer {
  import opened Common
  import opened Messages
  import NodeRegistry
  import opened SegmentNames
  import opened Recordings
  import opened RetentionPolicies

  const BATCH: nat := 500
  const DAY := 86400

  /** COALESCE(own policy's keep_days, default policy's keep_days) */
  function KeepDays(row: Row, policies: map<Uuid, Policy>, defaultDays: Option<int>): Option<int> {
    if row.policy.Some? && row.policy.value in policies then Some(policies[row.policy.value].keepDays)
    else defaultDays
  }

  /** What the lateral join on the default policy yields. */
  ghost predicate IsDefaultDays(policies: map<Uuid, Policy>, d: Option<int>) {
    match d
    case Some(days) => exists id :: id in Defaults(policies) && policies[id].keepDays == days
    case None => Defaults(policies) == {}
  }

  predicate Expired(k: Key, row: Row, policies: map<Uuid, Policy>, defaultDays: Option<int>, now: int) {
    match KeepDays(row, policies, defaultDays)
    case None => false
    case Some(days) => k.startedAt < now - days * DAY
  }

  function ExpiredKeys(rows: map<Key, Row>, policies: map<Uuid, Policy>, defaultDays: Option<int>, now: int): set<Key> {
    set k | k in rows && Expired(k, rows[k], policies, defaultDays, now)
  }

  // ---- Which rows expire ----

  /** A row with a policy of its own in the table expires by that policy alone, whatever the default. */
  lemma OwnPolicyIff(rows: map<Key, Row>, k: Key, policies: map<Uuid, Policy>, d: Option<int>, now: int)
    requires k in rows && rows[k].policy.Some? && rows[k].policy.value in policies
    ensures k in ExpiredKeys(rows, policies, d, now)
       <==> now - k.startedAt > policies[rows[k].policy.value].keepDays * 86400
  {
  }

  /** Every other row expires by the one default policy, and never while there is none. */
  lemma DefaultPolicyIff(rows: map<Key, Row>, k: Key, s: State, d: Option<int>, now: int)
    requires RetentionPolicies.Valid(s) && IsDefaultDays(s.policies, d)
    requires k in rows && (rows[k].policy.None? || rows[k].policy.value !in s.policies)
    ensures k in ExpiredKeys(rows, s.policies, d, now)
       <==> exists id :: id in s.policies && s.policies[id].isDefault && now - k.startedAt > s.policies[id].keepDays * 86400
  {
    assert forall x | x in s.policies && s.policies[x].isDefault :: x in Defaults(s.policies);
    if d.Some? {
      var id :| id in Defaults(s.policies) && s.policies[id].keepDays == d.value;
      assert forall x | x in Defaults(s.policies) :: x == id;
      assert id in s.policies && s.policies[id].isDefault;
    }
  }

  /** Only rows of the table expire. */
  lemma ExpiredInTable(rows: map<Key, Row>, policies: map<Uuid, Policy>, d: Option<int>, now: int)
    ensures ExpiredKeys(rows, policies, d, now) <= rows.Keys
  {
  }

  /** Another default leaves the expired rows with a policy of their own unchanged. */
  lemma DefaultLeavesOwn(rows: map<Key, Row>, k: Key, policies: map<Uuid, Policy>, d: Option<int>, d': Option<int>, now: int)
    requires k in rows && rows[k].policy.Some? && rows[k].policy.value in policies
    ensures k in ExpiredKeys(rows, policies, d, now) <==> k in ExpiredKeys(rows, policies, d', now)
  {
  }

  /** With valid policies nothing younger than a day is ever selected. */
  lemma NothingYoungExpires(s: State, rows: map<Key, Row>, d: Option<int>, now: int, k: Key)
    requires RetentionPolicies.Valid(s) && IsDefaultDays(s.policies, d)
    requires k in ExpiredKeys(rows, s.policies, d, now)
    ensures now - k.startedAt > 86400
  {
    var days := KeepDays(rows[k], s.policies, d).value;
    assert days >= 1;
  }

  function Keys(batch: seq<Key>): set<Key> {
    set k | k in batch
  }

  predicate OldestFirst(batch: seq<Key>) {
    forall i, j | 0 <= i < j < |batch| :: batch[i] != batch[j] && batch[i].startedAt <= batch[j].startedAt
  }

  /** A result of the query: ORDER BY started_at LIMIT 500 over the expired rows, ties in any order. */
  ghost predicate IsBatch(batch: seq<Key>, expired: set<Key>) {
    && OldestFirst(batch)
    && Keys(batch) <= expired
    && |batch| == Min(BATCH, |expired|)
    && forall k, l | k in batch && l in expired && l !in batch :: k.startedAt <= l.startedAt
  }

  lemma {:induction false} OldestExists(s: set<Key>)
    requires s != {}
    ensures exists k :: k in s && forall l | l in s :: k.startedAt <= l.startedAt
    decreases |s|
  {
    var a :| a in s;
    if s == {a} {
    } else {
      assert s - {a} != {};
      OldestExists(s - {a});
      var b :| b in s - {a} && forall l | l in s - {a} :: b.startedAt <= l.startedAt;
      assert forall l | l in s :: l == a || l in s - {a};
      var k := if a.startedAt <= b.startedAt then a else b;
      assert k in s && forall l | l in s :: k.startedAt <= l.startedAt;
    }
  }

  /** `batch` holds the oldest of `expired`, `rest` the others. */
  predicate Selecting(batch: seq<Key>, rest: set<Key>, expired: set<Key>) {
    && OldestFirst(batch)
    && |batch| + |rest| == |expired|
    && Keys(batch) !! rest && Keys(batch) + rest == expired
    && forall k, l | k in Keys(batch) && l in rest :: k.startedAt <= l.startedAt
  }

  lemma SelectNext(batch: seq<Key>, rest: set<Key>, expired: set<Key>, k: Key)
    requires Selecting(batch, rest, expired) && k in rest && forall l | l in rest :: k.startedAt <= l.startedAt
    ensures Selecting(batch + [k], rest - {k}, expired)
  {
    KeysSnoc(batch, k);
    OldestFirstSnoc(batch, k);
  }

  lemma KeysSnoc(batch: seq<Key>, k: Key)
    ensures Keys(batch + [k]) == Keys(batch) + {k}
  {
  }

  lemma OldestFirstSnoc(batch: seq<Key>, k: Key)
    requires OldestFirst(batch) && k !in Keys(batch) && forall b | b in Keys(batch) :: b.startedAt <= k.startedAt
    ensures OldestFirst(batch + [k])
  {
    assert forall i | 0 <= i < |batch| :: batch[i] in Keys(batch);
  }

  /** `query_expired`: the query's answer exists and can be computed. */
  method QueryExpired(rows: map<Key, Row>, policies: map<Uuid, Policy>, defaultDays: Option<int>, now: int)
    returns (batch: seq<Key>)
    ensures IsBatch(batch, ExpiredKeys(rows, policies, defaultDays, now))
  {
    var expired := ExpiredKeys(rows, policies, defaultDays, now);
    var rest := expired;
    batch := [];
    while |batch| < BATCH && rest != {}
      invariant |batch| <= BATCH
      invariant Selecting(batch, rest, expired)
      decreases |rest|
    {
      OldestExists(rest);
      var k :| k in rest && forall l | l in rest :: k.startedAt <= l.startedAt;
      SelectNext(batch, rest, expired, k);
      batch := batch + [k];
      rest := rest - {k};
    }
    assert forall k | k in batch :: k in Keys(batch);
    assert forall l | l in expired && l !in batch :: l in rest;
  }

  // ---- Deleting and notifying ----

  function DeleteMessage(k: Key, row: Row): WsMessage {
    DeleteRecording(k.id, k.startedAt, row.storageUri)
  }

  /** The messages a batch owes to node `n`, in batch order. */
  function MessagesFor(batch: seq<Key>, rows: map<Key, Row>, n: Uuid): seq<WsMessage>
    requires Keys(batch) <= rows.Keys
  {
    if batch == [] then []
    else
      var k := batch[|batch| - 1];
      assert forall x | x in batch :: x in Keys(batch);
      MessagesFor(batch[..|batch| - 1], rows, n)
      + (if rows[k].nodeId == n then [DeleteMessage(k, rows[k])] else [])
  }

  /** The channels after the messages of a batch have been pushed one by one. */
  function PushedAll(nodes: map<Uuid, nat>, chans: map<nat, seq<WsMessage>>, batch: seq<Key>, rows: map<Key, Row>): map<nat, seq<WsMessage>>
    requires Keys(batch) <= rows.Keys
  {
    if batch == [] then chans
    else
      var k := batch[|batch| - 1];
      assert forall x | x in batch :: x in Keys(batch);
      NodeRegistry.Pushed(nodes, PushedAll(nodes, chans, batch[..|batch| - 1], rows), rows[k].nodeId, DeleteMessage(k, rows[k]))
  }

  /** A registered node's channel grows by exactly its own messages. */
  lemma {:induction false} PushedAllAt(nodes: map<Uuid, nat>, chans: map<nat, seq<WsMessage>>, batch: seq<Key>, rows: map<Key, Row>, n: Uuid)
    requires Keys(batch) <= rows.Keys && n in nodes && nodes[n] in chans
    requires forall m | m in nodes && nodes[m] == nodes[n] :: m == n
    ensures PushedAll(nodes, chans, batch, rows).Keys == chans.Keys
    ensures PushedAll(nodes, chans, batch, rows)[nodes[n]] == chans[nodes[n]] + MessagesFor(batch, rows, n)
    decreases |batch|
  {
    if batch != [] {
      assert forall x | x in batch :: x in Keys(batch);
      PushedAllAt(nodes, chans, batch[..|batch| - 1], rows, n);
    }
  }

  class Enforcer {
    var rows: map<Key, Row>
    const state: NodeRegistry.AppState

    constructor (rows: map<Key, Row>, state: NodeRegistry.AppState)
      ensures this.rows == rows && this.state == state
    {
      this.rows, this.state := rows, state;
    }

    /** `delete_and_notify`: exactly the selected rows whose DELETE succeeds go, and one DeleteRecording is
        pushed for every selected row, also for a row whose DELETE failed. */
    method DeleteAndNotify(batch: seq<Key>, failing: set<Key>)
      requires Keys(batch) <= rows.Keys
      requires forall i, j | 0 <= i < j < |batch| :: batch[i] != batch[j]
      modifies this, state`chans
      ensures rows == old(rows) - (Keys(batch) - failing)
      ensures state.chans == PushedAll(state.nodes, old(state.chans), batch, old(rows))
    {
      var i := 0;
      ghost var all := rows;
      assert forall x | x in batch :: x in Keys(batch);
      while i < |batch|
        invariant 0 <= i <= |batch|
        invariant Keys(batch[..i]) <= all.Keys
        invariant rows == all - (Keys(batch[..i]) - failing)
        invariant state.chans == PushedAll(state.nodes, old(state.chans), batch[..i], all)
      {
        var k := batch[i];
        assert batch[..i + 1] == batch[..i] + [k];
        assert batch[..i + 1][..i] == batch[..i];
        KeysSnoc(batch[..i], k);
        assert k !in batch[..i];
        var row := rows[k];
        if k !in failing {
          rows := rows - {k};
        }
        state.PushToNode(row.nodeId, DeleteRecording(k.id, k.startedAt, row.storageUri));
        i := i + 1;
      }
      assert batch[..i] == batch;
    }

    /** One tick of `run_enforcer`; a query that fails counts as an empty answer. */
    method Tick(policies: map<Uuid, Policy>, defaultDays: Option<int>, now: int, queryOk: bool, failing: set<Key>)
      returns (batch: seq<Key>)
      modifies this, state`chans
      ensures if queryOk then IsBatch(batch, ExpiredKeys(old(rows), policies, defaultDays, now)) else batch == []
      ensures Keys(batch) <= old(rows).Keys
      ensures rows == old(rows) - (Keys(batch) - failing)
      ensures state.chans == PushedAll(state.nodes, old(state.chans), batch, old(rows))
      ensures queryOk && failing == {} ==> Pass(old(rows), rows, policies, defaultDays, now)
    {
      if queryOk {
        batch := QueryExpired(rows, policies, defaultDays, now);
      } else {
        batch := [];
      }
      ghost var before := rows;
      DeleteAndNotify(batch, failing);
      assert failing == {} ==> Keys(batch) - failing == Keys(batch);
    }
  }

  /** A row's owner is offered exactly one message for it, and nobody else any. */
  lemma {:induction false} OfferedOnce(batch: seq<Key>, rows: map<Key, Row>, k: Key, n: Uuid)
    requires Keys(batch) <= rows.Keys && k in rows
    requires forall i, j | 0 <= i < j < |batch| :: batch[i] != batch[j]
    ensures multiset(MessagesFor(batch, rows, n))[DeleteMessage(k, rows[k])]
         == if k in batch && rows[k].nodeId == n then 1 else 0
    decreases |batch|
  {
    if batch != [] {
      var init, last := batch[..|batch| - 1], batch[|batch| - 1];
      assert batch == init + [last];
      KeysSnoc(init, last);
      OfferedOnce(init, rows, k, n);
      OfferOne(init, last, k);
      SameMessage(k, last, rows);
      CountSnoc(MessagesFor(init, rows, n), DeleteMessage(last, rows[last]), DeleteMessage(k, rows[k]));
    }
  }

  lemma OfferOne(init: seq<Key>, last: Key, k: Key)
    ensures k in init + [last] <==> k in init || k == last
  {
  }

  lemma SameMessage(k: Key, l: Key, rows: map<Key, Row>)
    requires k in rows && l in rows
    ensures DeleteMessage(k, rows[k]) == DeleteMessage(l, rows[l]) <==> k == l
  {
  }

  lemma CountSnoc(msgs: seq<WsMessage>, m: WsMessage, wanted: WsMessage)
    ensures multiset(msgs + [m])[wanted] == multiset(msgs)[wanted] + if m == wanted then 1 else 0
    ensures multiset(msgs + [])[wanted] == multiset(msgs)[wanted]
  {
    assert msgs + [] == msgs;
  }

  // ---- Draining ----

  /** The rows after each of a series of passes, clock and policies fixed and every DELETE succeeding. */
  ghost predicate Passes(tables: seq<map<Key, Row>>, policies: map<Uuid, Policy>, d: Option<int>, now: int) {
    && |tables| >= 1
    && forall i | 0 <= i < |tables| - 1 :: Pass(tables[i], tables[i + 1], policies, d, now)
  }

  ghost predicate Pass(rows: map<Key, Row>, rows': map<Key, Row>, policies: map<Uuid, Policy>, d: Option<int>, now: int) {
    exists batch :: IsBatch(batch, ExpiredKeys(rows, policies, d, now)) && rows' == rows - Keys(batch)
  }

  lemma {:induction false} KeysSize(batch: seq<Key>)
    requires forall i, j | 0 <= i < j < |batch| :: batch[i] != batch[j]
    ensures |Keys(batch)| == |batch|
    decreases |batch|
  {
    if batch != [] {
      var init, last := batch[..|batch| - 1], batch[|batch| - 1];
      KeysSize(init);
      assert Keys(batch) == Keys(init) + {last};
      assert last !in Keys(init);
    }
  }

  lemma BatchAsSet(batch: seq<Key>, expired: set<Key>)
    requires IsBatch(batch, expired)
    ensures Keys(batch) <= expired && |expired - Keys(batch)| == |expired| - Min(BATCH, |expired|)
    ensures forall k, l | k in Keys(batch) && l in expired - Keys(batch) :: k.startedAt <= l.startedAt
  {
    KeysSize(batch);
    assert expired == (expired - Keys(batch)) + Keys(batch);
    assert forall l :: l in batch <==> l in Keys(batch);
  }

  lemma ExpiredAfterDelete(rows: map<Key, Row>, gone: set<Key>, policies: map<Uuid, Policy>, d: Option<int>, now: int)
    ensures ExpiredKeys(rows - gone, policies, d, now) == ExpiredKeys(rows, policies, d, now) - gone
  {
  }

  /** One pass: min(500, n) of the n expired rows go, none older than them stays behind, nothing else moves. */
  lemma PassEffect(rows: map<Key, Row>, rows': map<Key, Row>, policies: map<Uuid, Policy>, d: Option<int>, now: int)
    requires Pass(rows, rows', policies, d, now)
    ensures var before, after := ExpiredKeys(rows, policies, d, now), ExpiredKeys(rows', policies, d, now);
            && |after| == |before| - (if |before| <= 500 then |before| else 500)
            && after <= before
            && rows' == rows - (before - after)
            && (forall k, l | k in before - after && l in after :: k.startedAt <= l.startedAt)
  {
    var before := ExpiredKeys(rows, policies, d, now);
    var batch :| IsBatch(batch, before) && rows' == rows - Keys(batch);
    BatchAsSet(batch, before);
    ExpiredAfterDelete(rows, Keys(batch), policies, d, now);
    assert before - (before - Keys(batch)) == Keys(batch);
  }

  /** Retention drain: after p passes n - 500 p expired rows are left, so ceil(n / 500) passes leave none, and
      rows that have not expired are never touched. */
  lemma {:induction false} RetentionDrain(tables: seq<map<Key, Row>>, policies: map<Uuid, Policy>, d: Option<int>, now: int)
    requires Passes(tables, policies, d, now)
    ensures var n, p := |ExpiredKeys(tables[0], policies, d, now)|, |tables| - 1;
            && |ExpiredKeys(tables[p], policies, d, now)| == (if n <= 500 * p then 0 else n - 500 * p)
            && (p * 500 >= n <==> ExpiredKeys(tables[p], policies, d, now) == {})
            && forall k | k in tables[0] && !Expired(k, tables[0][k], policies, d, now) ::
                 k in tables[p] && tables[p][k] == tables[0][k]
    decreases |tables|
  {
    var p := |tables| - 1;
    if p > 0 {
      RetentionDrain(tables[..p], policies, d, now);
      assert tables[..p][p - 1] == tables[p - 1];
      PassEffect(tables[p - 1], tables[p], policies, d, now);
    }
  }
}
