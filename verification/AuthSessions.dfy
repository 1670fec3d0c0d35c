/**
 * Login, refresh and logout over the `sessions` rows (coordinator/src/routes/auth.rs). A refresh is two
 * statements, SELECT then UPDATE, and other requests may run in between.
 */
module AuthSessions {
  import opened Common

  type Token = nat
  type Hash = nat

  const SESSION_SECS := 7 * 86400

  datatype Session = Session(user: Uuid, tokenHash: Hash, expiresAt: int)

  ghost predicate Injective(h: Token -> Hash) {
    forall a, b :: h(a) == h(b) ==> a == b
  }

  // ---- The statements ----

  /** SELECT ... WHERE token_hash = $1 AND expires_at > NOW() */
  predicate Matches(row: Session, hash: Hash, now: int) {
    row.tokenHash == hash && row.expiresAt > now
  }

  /** UPDATE sessions SET token_hash, expires_at WHERE id = $3; no row, no effect. */
  function Rotated(sessions: map<Uuid, Session>, id: Uuid, hash: Hash, now: int): map<Uuid, Session> {
    if id in sessions then sessions[id := Session(sessions[id].user, hash, now + SESSION_SECS)] else sessions
  }

  /** DELETE FROM sessions WHERE user_id = $1 */
  function WithoutUser(sessions: map<Uuid, Session>, user: Uuid): map<Uuid, Session> {
    map id | id in sessions && sessions[id].user != user :: sessions[id]
  }

  datatype AuthError = Unauthorized

  class SessionStore {
    var sessions: map<Uuid, Session>
    const hash: Token -> Hash

    constructor (hash: Token -> Hash)
      ensures sessions == map[] && this.hash == hash
    {
      this.sessions, this.hash := map[], hash;
    }

    /** `login`, once the user row is read (if any) and the password compared. */
    method Login(user: Option<Uuid>, passwordOk: bool, newId: Uuid, newToken: Token, now: int) returns (r: Result<Token, AuthError>)
      requires newId !in sessions
      modifies this`sessions
      ensures r.Ok? <==> user.Some? && passwordOk
      ensures r.Ok? ==> r.value == newToken && user.Some?
                        && sessions == old(sessions)[newId := Session(user.value, hash(newToken), now + 604800)]
      ensures r.Err? ==> sessions == old(sessions)
    {
      match user {
        case None => return Err(Unauthorized);
        case Some(u) =>
          if !passwordOk {
            return Err(Unauthorized);
          }
          sessions := sessions[newId := Session(u, hash(newToken), now + SESSION_SECS)];
          r := Ok(newToken);
      }
    }

    /** `refresh`, undisturbed: refused exactly if no live session matches; otherwise one matching session
        takes the new token and a new term, and the rest stay. */
    method Refresh(token: Token, newToken: Token, now: int) returns (r: Result<Token, AuthError>)
      modifies this`sessions
      ensures r.Err? <==> forall id | id in old(sessions) ::
                             old(sessions)[id].tokenHash != hash(token) || old(sessions)[id].expiresAt <= now
      ensures r.Err? ==> sessions == old(sessions)
      ensures r.Ok? ==> r.value == newToken
                        && exists id :: id in old(sessions)
                             && old(sessions)[id].tokenHash == hash(token) && old(sessions)[id].expiresAt > now
                             && sessions == old(sessions)[id := Session(old(sessions)[id].user, hash(newToken), now + 604800)]
    {
      if forall id | id in sessions :: !Matches(sessions[id], hash(token), now) {
        return Err(Unauthorized);
      }
      var id :| id in sessions && Matches(sessions[id], hash(token), now);
      sessions := Rotated(sessions, id, hash(newToken), now);
      r := Ok(newToken);
    }

    /** `logout`: every session of the user goes, every other one stays. */
    method Logout(user: Uuid)
      modifies this`sessions
      ensures forall id :: id in sessions <==> id in old(sessions) && old(sessions)[id].user != user
      ensures forall id | id in sessions :: sessions[id] == old(sessions)[id]
    {
      sessions := WithoutUser(sessions, user);
    }
  }

  // ---- Interleavings ----

  /** A refresh between its SELECT and its UPDATE. */
  datatype Flight = Flight(presented: Token, sid: Uuid)

  /** A refresh that has answered: the token it was given and the one it returned. */
  datatype Reply = Reply(presented: Token, returned: Token)

  /** `issued` remembers for which session each token was made; nothing in the code reads it. */
  datatype State = State(
    sessions: map<Uuid, Session>, now: int,
    flights: map<nat, Flight>, replies: map<nat, Reply>, issued: map<Token, Uuid>, usedIds: set<Uuid>)

  datatype Step =
    | Login(sid: Uuid, user: Uuid, token: Token)
    | Select(req: nat, presented: Token, sid: Uuid)
    | Update(req: nat, token: Token)
    | Abort(req: nat)
    | Logout(user: Uuid)
    | Tick(seconds: nat)

  predicate Enabled(s: State, step: Step, h: Token -> Hash) {
    match step
    case Login(sid, _, t) => sid !in s.usedIds && t !in s.issued
    case Select(req, t, sid) =>
      req !in s.flights && req !in s.replies && sid in s.sessions && Matches(s.sessions[sid], h(t), s.now)
    case Update(req, t) => req in s.flights && t !in s.issued
    case Abort(req) => req in s.flights
    case Logout(_) => true
    case Tick(_) => true
  }

  function Do(s: State, step: Step, h: Token -> Hash): State
    requires Enabled(s, step, h)
  {
    match step
    case Login(sid, user, t) =>
      s.(sessions := s.sessions[sid := Session(user, h(t), s.now + SESSION_SECS)],
         issued := s.issued[t := sid], usedIds := s.usedIds + {sid})
    case Select(req, t, sid) => s.(flights := s.flights[req := Flight(t, sid)])
    case Update(req, t) =>
      var f := s.flights[req];
      s.(sessions := Rotated(s.sessions, f.sid, h(t), s.now), issued := s.issued[t := f.sid],
         flights := s.flights - {req}, replies := s.replies[req := Reply(f.presented, t)])
    case Abort(req) => s.(flights := s.flights - {req})
    case Logout(user) => s.(sessions := WithoutUser(s.sessions, user))
    case Tick(seconds) => s.(now := s.now + seconds)
  }

  predicate Runs(s: State, steps: seq<Step>, h: Token -> Hash)
    decreases |steps|
  {
    steps == [] || (Enabled(s, steps[0], h) && Runs(Do(s, steps[0], h), steps[1..], h))
  }

  function Exec(s: State, steps: seq<Step>, h: Token -> Hash): State
    requires Runs(s, steps, h)
    decreases |steps|
  {
    if steps == [] then s else Exec(Do(s, steps[0], h), steps[1..], h)
  }

  function Init(now: int): State {
    State(map[], now, map[], map[], map[], {})
  }

  /** Some session row carries the token, expired or not. */
  ghost predicate Current(s: State, t: Token, h: Token -> Hash) {
    exists sid :: sid in s.sessions && s.sessions[sid].tokenHash == h(t)
  }

  /** The token would pass a refresh now. */
  ghost predicate Validates(s: State, t: Token, h: Token -> Hash) {
    exists sid :: sid in s.sessions && Matches(s.sessions[sid], h(t), s.now)
  }

  /** A session's row carries a token made for that very session. */
  ghost predicate RowIssued(s: State, sid: Uuid, h: Token -> Hash)
    requires sid in s.sessions
  {
    exists t :: t in s.issued && s.issued[t] == sid && s.sessions[sid].tokenHash == h(t)
  }

  ghost predicate Inv(s: State, h: Token -> Hash) {
    && s.sessions.Keys <= s.usedIds
    && (forall sid | sid in s.sessions :: RowIssued(s, sid, h))
    && (forall t | t in s.issued :: s.issued[t] in s.usedIds)
    && (forall r | r in s.flights :: s.flights[r].presented in s.issued && s.issued[s.flights[r].presented] == s.flights[r].sid)
    && (forall r | r in s.replies ::
          && s.replies[r].presented in s.issued && s.replies[r].returned in s.issued
          && s.issued[s.replies[r].presented] == s.issued[s.replies[r].returned])
    && (forall q, r | q in s.replies && r in s.replies && s.replies[q].returned == s.replies[r].returned :: q == r)
  }

  /** A token can only be found in the session it was made for. */
  lemma OnlyInOwnSession(s: State, t: Token, sid: Uuid, h: Token -> Hash)
    requires Inv(s, h) && Injective(h) && sid in s.sessions && s.sessions[sid].tokenHash == h(t)
    ensures t in s.issued && s.issued[t] == sid
  {
  }

  lemma RowsStep(s: State, step: Step, h: Token -> Hash)
    requires Inv(s, h) && Enabled(s, step, h)
    ensures var t := Do(s, step, h); forall sid | sid in t.sessions :: RowIssued(t, sid, h)
  {
    var t := Do(s, step, h);
    forall sid | sid in t.sessions ensures RowIssued(t, sid, h) {
      if sid in s.sessions && t.sessions[sid] == s.sessions[sid] {
        var x :| x in s.issued && s.issued[x] == sid && s.sessions[sid].tokenHash == h(x);
        assert x in t.issued && t.issued[x] == sid;
      } else {
        assert step.token in t.issued && t.issued[step.token] == sid;
      }
    }
  }

  lemma StepInv(s: State, step: Step, h: Token -> Hash)
    requires Inv(s, h) && Injective(h) && Enabled(s, step, h)
    ensures Inv(Do(s, step, h), h)
  {
    RowsStep(s, step, h);
    if step.Select? {
      OnlyInOwnSession(s, step.presented, step.sid, h);
    }
  }

  lemma {:induction false} RunInv(s: State, steps: seq<Step>, h: Token -> Hash)
    requires Inv(s, h) && Injective(h) && Runs(s, steps, h)
    ensures Inv(Exec(s, steps, h), h)
    decreases |steps|
  {
    if steps != [] {
      StepInv(s, steps[0], h);
      RunInv(Do(s, steps[0], h), steps[1..], h);
    }
  }

  // ---- Rotation ----

  lemma StepRetired(s: State, step: Step, t: Token, h: Token -> Hash)
    requires Inv(s, h) && Injective(h) && Enabled(s, step, h)
    requires t in s.issued && !Current(s, t, h)
    ensures t in Do(s, step, h).issued && !Current(Do(s, step, h), t, h)
  {
    var u := Do(s, step, h);
    forall sid | sid in u.sessions ensures u.sessions[sid].tokenHash != h(t) {
      if sid in s.sessions && u.sessions[sid] == s.sessions[sid] {
      } else {
        assert u.sessions[sid].tokenHash == h(step.token);
      }
    }
  }

  /** A token no session carries any more is never valid again. */
  lemma {:induction false} RetiredForever(s: State, steps: seq<Step>, t: Token, h: Token -> Hash)
    requires Inv(s, h) && Injective(h) && Runs(s, steps, h)
    requires t in s.issued && !Current(s, t, h)
    ensures !Current(Exec(s, steps, h), t, h) && !Validates(Exec(s, steps, h), t, h)
    decreases |steps|
  {
    if steps != [] {
      StepInv(s, steps[0], h);
      StepRetired(s, steps[0], t, h);
      RetiredForever(Do(s, steps[0], h), steps[1..], t, h);
    }
  }

  /** Once a refresh has answered, the token presented to it never validates again, whatever other refreshes,
      logins and logouts ran between its SELECT and its UPDATE or run later. */
  lemma ReplacedNeverValidates(s: State, req: nat, token: Token, steps: seq<Step>, h: Token -> Hash)
    requires Inv(s, h) && Injective(h) && Enabled(s, Update(req, token), h)
    requires Runs(Do(s, Update(req, token), h), steps, h)
    ensures !Validates(Exec(Do(s, Update(req, token), h), steps, h), s.flights[req].presented, h)
  {
    var t := Do(s, Update(req, token), h);
    var given := s.flights[req].presented;
    StepInv(s, Update(req, token), h);
    forall sid | sid in t.sessions ensures t.sessions[sid].tokenHash != h(given) {
      if t.sessions[sid].tokenHash == h(given) {
        OnlyInOwnSession(t, given, sid, h);
        assert false;
      }
    }
    RetiredForever(t, steps, given, h);
  }

  /** A session validates at most one token, and a token validates through at most one session. */
  lemma OneTokenPerSession(s: State, sid: Uuid, sid': Uuid, t: Token, t': Token, h: Token -> Hash)
    requires Inv(s, h) && Injective(h) && sid in s.sessions && sid' in s.sessions
    requires s.sessions[sid].tokenHash == h(t) && s.sessions[sid'].tokenHash == h(t')
    ensures sid == sid' <==> t == t'
  {
    OnlyInOwnSession(s, t, sid, h);
    OnlyInOwnSession(s, t', sid', h);
  }

  /** Racing refreshes of one token: at most one of the returned tokens is valid, in every reachable state. */
  lemma RaceOneWinner(now: int, steps: seq<Step>, q: nat, r: nat, h: Token -> Hash)
    requires Injective(h) && Runs(Init(now), steps, h)
    requires var s := Exec(Init(now), steps, h);
             q in s.replies && r in s.replies && q != r && s.replies[q].presented == s.replies[r].presented
    ensures var s := Exec(Init(now), steps, h);
            !(Validates(s, s.replies[q].returned, h) && Validates(s, s.replies[r].returned, h))
  {
    RunInv(Init(now), steps, h);
    var s := Exec(Init(now), steps, h);
    var a, b := s.replies[q].returned, s.replies[r].returned;
    if Validates(s, a, h) && Validates(s, b, h) {
      var sa :| sa in s.sessions && Matches(s.sessions[sa], h(a), s.now);
      var sb :| sb in s.sessions && Matches(s.sessions[sb], h(b), s.now);
      OnlyInOwnSession(s, a, sa, h);
      OnlyInOwnSession(s, b, sb, h);
      OneTokenPerSession(s, sa, sb, a, b, h);
    }
  }

  /** The winner is the later UPDATE: the earlier one's token is dead at once, and the later one's is valid
      exactly if the session still exists. */
  lemma LaterUpdateWins(s: State, q: nat, r: nat, a: Token, b: Token, h: Token -> Hash)
    requires Inv(s, h) && Injective(h)
    requires q in s.flights && r in s.flights && q != r && s.flights[q].sid == s.flights[r].sid
    requires a !in s.issued && b !in s.issued && a != b
    ensures Runs(s, [Update(q, a), Update(r, b)], h)
    ensures var t := Exec(s, [Update(q, a), Update(r, b)], h);
            && !Validates(t, a, h)
            && (Validates(t, b, h) <==> s.flights[q].sid in s.sessions)
  {
    var s1 := Do(s, Update(q, a), h);
    var s2 := Do(s1, Update(r, b), h);
    assert [Update(q, a), Update(r, b)][1..] == [Update(r, b)];
    assert [Update(r, b)][1..] == [];
    assert Exec(s1, [Update(r, b)], h) == s2;
    StepInv(s, Update(q, a), h);
    StepInv(s1, Update(r, b), h);
    var sid := s.flights[q].sid;
    forall x | x in s2.sessions && (s2.sessions[x].tokenHash == h(a) || s2.sessions[x].tokenHash == h(b))
      ensures x == sid && s2.sessions[x].tokenHash == h(b)
    {
      var t := if s2.sessions[x].tokenHash == h(a) then a else b;
      OnlyInOwnSession(s2, t, x, h);
    }
    if sid in s.sessions {
      assert Matches(s2.sessions[sid], h(b), s2.now);
    }
  }

  /** Ids are never used twice, so a deleted session stays deleted. */
  lemma {:induction false} GoneForever(s: State, steps: seq<Step>, sid: Uuid, h: Token -> Hash)
    requires Runs(s, steps, h) && sid in s.usedIds && sid !in s.sessions
    ensures sid !in Exec(s, steps, h).sessions
    decreases |steps|
  {
    if steps != [] {
      GoneForever(Do(s, steps[0], h), steps[1..], sid, h);
    }
  }

  /** Logout reaches into refreshes under way: the token a request returns later for a session of that user
      never validates. */
  lemma LogoutKillsInFlight(s: State, user: Uuid, req: nat, steps: seq<Step>, h: Token -> Hash)
    requires Inv(s, h) && Injective(h) && Runs(Do(s, Logout(user), h), steps, h)
    requires req in s.flights && s.flights[req].sid in s.sessions && s.sessions[s.flights[req].sid].user == user
    requires req in Exec(Do(s, Logout(user), h), steps, h).replies
    requires Exec(Do(s, Logout(user), h), steps, h).replies[req].presented == s.flights[req].presented
    ensures var t := Exec(Do(s, Logout(user), h), steps, h); !Validates(t, t.replies[req].returned, h)
  {
    var s1 := Do(s, Logout(user), h);
    StepInv(s, Logout(user), h);
    RunInv(s1, steps, h);
    GoneForever(s1, steps, s.flights[req].sid, h);
    var t := Exec(s1, steps, h);
    IssuedStays(s1, steps, s.flights[req].presented, h);
    forall x | x in t.sessions ensures t.sessions[x].tokenHash != h(t.replies[req].returned) {
      if t.sessions[x].tokenHash == h(t.replies[req].returned) {
        OnlyInOwnSession(t, t.replies[req].returned, x, h);
        assert false;
      }
    }
  }

  lemma {:induction false} IssuedStays(s: State, steps: seq<Step>, t: Token, h: Token -> Hash)
    requires Runs(s, steps, h) && t in s.issued
    ensures t in Exec(s, steps, h).issued && Exec(s, steps, h).issued[t] == s.issued[t]
    decreases |steps|
  {
    if steps != [] {
      IssuedStays(Do(s, steps[0], h), steps[1..], t, h);
    }
  }

  // ---- How long a token lives ----

  /** A token validates exactly if a session that has not expired carries it. */
  lemma ValidatesIff(s: State, t: Token, h: Token -> Hash)
    ensures Validates(s, t, h) <==>
            exists sid :: sid in s.sessions && s.sessions[sid].tokenHash == h(t) && s.now < s.sessions[sid].expiresAt
  {
    if sid :| sid in s.sessions && Matches(s.sessions[sid], h(t), s.now) {
      assert s.sessions[sid].tokenHash == h(t) && s.now < s.sessions[sid].expiresAt;
    }
    if sid :| sid in s.sessions && s.sessions[sid].tokenHash == h(t) && s.now < s.sessions[sid].expiresAt {
      assert Matches(s.sessions[sid], h(t), s.now);
    }
  }

  /** Left alone, the token of a login, or one that a refresh returned, lives for exactly seven days. */
  lemma SevenDays(s: State, step: Step, seconds: nat, h: Token -> Hash)
    requires Inv(s, h) && Injective(h) && Enabled(s, step, h)
    requires step.Login? || (step.Update? && s.flights[step.req].sid in s.sessions)
    ensures Validates(Do(Do(s, step, h), Tick(seconds), h), step.token, h) <==> seconds < 7 * 24 * 60 * 60
  {
    var t := Do(s, step, h);
    var u := Do(t, Tick(seconds), h);
    StepInv(s, step, h);
    ValidatesIff(u, step.token, h);
    var sid := if step.Login? then step.sid else s.flights[step.req].sid;
    assert u.now == s.now + seconds && u.sessions[sid].tokenHash == h(step.token);
    assert u.sessions[sid].expiresAt == s.now + 604800;
    forall x | x in u.sessions && u.sessions[x].tokenHash == h(step.token) ensures x == sid {
      OnlyInOwnSession(t, step.token, x, h);
      OnlyInOwnSession(t, step.token, sid, h);
    }
  }

  /** Logging in, refreshing and logging out change the sessions they should and no others. */
  lemma SessionsAfter(s: State, step: Step, sid: Uuid, h: Token -> Hash)
    requires Inv(s, h) && Enabled(s, step, h) && sid in s.sessions
    ensures var t := Do(s, step, h);
            && (sid in t.sessions <==> !(step.Logout? && s.sessions[sid].user == step.user))
            && (sid in t.sessions ==>
                  if step.Update? && s.flights[step.req].sid == sid
                  then t.sessions[sid] == Session(s.sessions[sid].user, h(step.token), s.now + 604800)
                  else t.sessions[sid] == s.sessions[sid])
  {
  }

  /** A refresh is under way from its SELECT until its UPDATE or until it gives up, and answered from then on. */
  lemma FlightsAfter(s: State, step: Step, req: nat, h: Token -> Hash)
    requires Enabled(s, step, h)
    ensures var t := Do(s, step, h);
            && (req in t.flights <==>
                  (step.Select? && step.req == req)
                  || (req in s.flights && step != Abort(req) && !(step.Update? && step.req == req)))
            && (req in t.replies <==> req in s.replies || (step.Update? && step.req == req))
  {
  }
}
