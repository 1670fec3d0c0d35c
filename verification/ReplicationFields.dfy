/** What each commit writes and tells the node, field by field, and what an idle node therefore holds. */
module ReplicationFields {
  import opened Common
  import opened Messages
  import opened CameraList
  import opened Replication
  import opened ReplicationRuns

  // ---- One commit ----

  /** A configuration with these field values. */
  predicate HasFields(c: NodeCameraConfig, name: string, rtspUrl: string, streamPath: Option<string>, enabled: bool,
                      onvifUrl: Option<string>, onvifUsername: Option<string>, onvifPassword: Option<string>,
                      motionDetection: bool)
  {
    && c.name == name && c.rtspUrl == rtspUrl && c.enabled == enabled && c.motionDetection == motionDetection
    && c.onvifUrl == onvifUrl && c.onvifUsername == onvifUsername && c.onvifPassword == onvifPassword
    && (streamPath.Some? ==> c.streamPath == streamPath.value) && (streamPath.None? ==> c.streamPath == "")
  }

  /** A create stores its row and announces every field of it; nothing else in the table changes. */
  lemma CreateEffect(s: State, row: Camera)
    requires Enabled(s, CreateCommit(row))
    ensures var t := Do(s, CreateCommit(row));
            && t.db == s.db[row.id := row] && |t.pending| == |s.pending| + 1 && t.pending[..|s.pending|] == s.pending
            && var p := t.pending[|s.pending|];
               && p.node == row.nodeId && p.msg.CameraAdded? && p.msg.added.id == row.id
               && HasFields(p.msg.added, row.name, row.rtspUrl, row.streamPath, row.enabled, row.onvifUrl,
                            row.onvifUsername, row.onvifPassword, row.motionDetection)
  {
  }

  /** `row` has in each field the value the PATCH gives, or that of `was` where it gives none. */
  predicate PatchTaken(was: Camera, patch: UpdateCamera, row: Camera) {
    && row.id == was.id && row.nodeId == was.nodeId
    && row.name == (match patch.name case Some(v) => v case None => was.name)
    && row.rtspUrl == (match patch.rtspUrl case Some(v) => v case None => was.rtspUrl)
    && row.streamPath == (if patch.streamPath.Some? then patch.streamPath else was.streamPath)
    && row.enabled == (match patch.enabled case Some(v) => v case None => was.enabled)
    && row.onvifUrl == (if patch.onvifUrl.Some? then patch.onvifUrl else was.onvifUrl)
    && row.onvifUsername == (if patch.onvifUsername.Some? then patch.onvifUsername else was.onvifUsername)
    && row.onvifPassword == (if patch.onvifPassword.Some? then patch.onvifPassword else was.onvifPassword)
    && row.motionDetection == (match patch.motionDetection case Some(v) => v case None => was.motionDetection)
  }

  /** A PATCH stores, and announces, in each field the value given, or the one stored before where none is given.
      Camera and node stay, and so does every other row. */
  lemma UpdateEffect(s: State, id: Uuid, patch: UpdateCamera)
    requires Enabled(s, UpdateCommit(id, patch)) && s.db[id].id == id
    ensures var t := Do(s, UpdateCommit(id, patch));
            && id in t.db && t.db == s.db[id := t.db[id]] && PatchTaken(s.db[id], patch, t.db[id])
            && |t.pending| == |s.pending| + 1 && t.pending[..|s.pending|] == s.pending
            && var p, row := t.pending[|s.pending|], t.db[id];
               && p.node == s.db[id].nodeId && p.msg.CameraUpdated? && p.msg.updated.id == id
               && HasFields(p.msg.updated, row.name, row.rtspUrl, row.streamPath, row.enabled, row.onvifUrl,
                            row.onvifUsername, row.onvifPassword, row.motionDetection)
  {
  }

  /** A delete removes exactly the row, and tells the node it was on. */
  lemma DeleteEffect(s: State, id: Uuid)
    requires Enabled(s, DeleteCommit(id))
    ensures Do(s, DeleteCommit(id)).db == s.db - {id}
    ensures Do(s, DeleteCommit(id)).pending == s.pending + [Pending(s.db[id].nodeId, CameraRemoved(id))]
  {
  }

  /** A node's list changes only by a delivery to it, or by its restart, which empties it. */
  lemma ListAfter(s: State, step: Step, n: Uuid)
    requires Enabled(s, step)
    ensures ListOf(Do(s, step), n)
         == if step.NodeRestart? && step.node == n then []
            else if step.Deliver? && s.sessions[step.sid].node == n then Apply(ListOf(s, n), s.sessions[step.sid].wire[0])
            else ListOf(s, n)
  {
  }

  /** A session's frames under way grow by what is sent while its connection is up, shrink by deliveries from the
      front, and gain nothing once the node's end is gone. */
  lemma WireAfter(s: State, step: Step, k: nat)
    requires Enabled(s, step) && k in s.sessions && !(step.Open? && step.sid == k)
    ensures k in Do(s, step).sessions
    ensures Do(s, step).sessions[k].wire
         == if step.Deliver? && step.sid == k then s.sessions[k].wire[1..]
            else if step.SendSnapshot? && step.sid == k && !s.sessions[k].broken
            then s.sessions[k].wire + [ConfigSync(s.sessions[k].phase.snapshot)]
            else if step.Forward? && step.sid == k && !s.sessions[k].broken then s.sessions[k].wire + [s.chans[k][0]]
            else s.sessions[k].wire
    ensures Do(s, step).sessions[k].broken <==> s.sessions[k].broken || step == Break(k)
  {
  }

  // ---- A whole run ----

  /** What a commit gives a field of camera `id`; `made` and `patched` read the field of a row and of a PATCH. */
  function Given<F>(step: Step, id: Uuid, made: Camera -> F, patched: UpdateCamera -> Option<F>): Option<F> {
    match step
    case CreateCommit(row) => if row.id == id then Some(made(row)) else None
    case UpdateCommit(x, patch) => if x == id then patched(patch) else None
    case _ => None
  }

  /** The value of the last commit that gave one, or else the one at the start. */
  predicate LastGiven<F(==)>(steps: seq<Step>, id: Uuid, made: Camera -> F, patched: UpdateCamera -> Option<F>, start: F, value: F) {
    || (value == start && forall j | 0 <= j < |steps| :: Given(steps[j], id, made, patched).None?)
    || (exists i | 0 <= i < |steps| :: Given(steps[i], id, made, patched) == Some(value)
          && forall j | i < j < |steps| :: Given(steps[j], id, made, patched).None?)
  }

  /** A field whose stored value is kept by a PATCH that does not give it. */
  ghost predicate Keeps<F(!new)>(made: Camera -> F, patched: UpdateCamera -> Option<F>) {
    forall row, patch :: made(Patched(row, patch)) == (match patched(patch) case Some(v) => v case None => made(row))
  }

  lemma LastGivenCons<F>(steps: seq<Step>, id: Uuid, made: Camera -> F, patched: UpdateCamera -> Option<F>, start: F, next: F, value: F)
    requires steps != [] && LastGiven(steps[1..], id, made, patched, next, value)
    requires match Given(steps[0], id, made, patched) case Some(v) => next == v case None => next == start
    ensures LastGiven(steps, id, made, patched, start, value)
  {
    if i :| 0 <= i < |steps[1..]| && Given(steps[1..][i], id, made, patched) == Some(value)
            && forall j | i < j < |steps[1..]| :: Given(steps[1..][j], id, made, patched).None? {
      assert Given(steps[i + 1], id, made, patched) == Some(value);
      assert forall j | i + 1 < j < |steps| :: steps[j] == steps[1..][j - 1];
    } else {
      assert forall j | 1 <= j < |steps| :: steps[j] == steps[1..][j - 1];
    }
  }

  /** After any run a stored row has in each field the value of the last commit that gave one. */
  lemma {:induction false} FieldAfter<F(!new)>(s: State, steps: seq<Step>, id: Uuid, made: Camera -> F,
                                               patched: UpdateCamera -> Option<F>, start: F)
    requires Runs(s, steps) && Keeps(made, patched) && id in Exec(s, steps).db
    requires id in s.db ==> start == made(s.db[id])
    ensures LastGiven(steps, id, made, patched, start, made(Exec(s, steps).db[id]))
    decreases |steps|
  {
    if steps != [] {
      var t := Do(s, steps[0]);
      var next := match Given(steps[0], id, made, patched) case Some(v) => v case None => start;
      FieldAfter(t, steps[1..], id, made, patched, next);
      LastGivenCons(steps, id, made, patched, start, next, made(Exec(s, steps).db[id]));
    }
  }

  function NameOf(r: Camera): string { r.name }
  function RtspUrlOf(r: Camera): string { r.rtspUrl }
  function StreamPathOf(r: Camera): Option<string> { r.streamPath }
  function EnabledOf(r: Camera): bool { r.enabled }
  function OnvifUrlOf(r: Camera): Option<string> { r.onvifUrl }
  function UsernameOf(r: Camera): Option<string> { r.onvifUsername }
  function PasswordOf(r: Camera): Option<string> { r.onvifPassword }
  function MotionOf(r: Camera): bool { r.motionDetection }

  function NewName(p: UpdateCamera): Option<string> { p.name }
  function NewRtspUrl(p: UpdateCamera): Option<string> { p.rtspUrl }
  function NewEnabled(p: UpdateCamera): Option<bool> { p.enabled }
  function NewMotion(p: UpdateCamera): Option<bool> { p.motionDetection }

  /** A field that can be absent: a PATCH sets it but never clears it. */
  function Set(o: Option<string>): Option<Option<string>> { if o.Some? then Some(o) else None }
  function NewStreamPath(p: UpdateCamera): Option<Option<string>> { Set(p.streamPath) }
  function NewOnvifUrl(p: UpdateCamera): Option<Option<string>> { Set(p.onvifUrl) }
  function NewUsername(p: UpdateCamera): Option<Option<string>> { Set(p.onvifUsername) }
  function NewPassword(p: UpdateCamera): Option<Option<string>> { Set(p.onvifPassword) }

  /** Every field of a row has the value last given to it. */
  ghost predicate AllLastGiven(steps: seq<Step>, start: Camera, row: Camera) {
    && LastGiven(steps, row.id, NameOf, NewName, start.name, row.name)
    && LastGiven(steps, row.id, RtspUrlOf, NewRtspUrl, start.rtspUrl, row.rtspUrl)
    && LastGiven(steps, row.id, StreamPathOf, NewStreamPath, start.streamPath, row.streamPath)
    && LastGiven(steps, row.id, EnabledOf, NewEnabled, start.enabled, row.enabled)
    && LastGiven(steps, row.id, OnvifUrlOf, NewOnvifUrl, start.onvifUrl, row.onvifUrl)
    && LastGiven(steps, row.id, UsernameOf, NewUsername, start.onvifUsername, row.onvifUsername)
    && LastGiven(steps, row.id, PasswordOf, NewPassword, start.onvifPassword, row.onvifPassword)
    && LastGiven(steps, row.id, MotionOf, NewMotion, start.motionDetection, row.motionDetection)
  }

  lemma RowAfter(s: State, steps: seq<Step>, id: Uuid, start: Camera)
    requires Runs(s, steps) && id in Exec(s, steps).db && Exec(s, steps).db[id].id == id
    requires id in s.db ==> start == s.db[id]
    ensures AllLastGiven(steps, start, Exec(s, steps).db[id])
  {
    FieldAfter(s, steps, id, NameOf, NewName, start.name);
    FieldAfter(s, steps, id, RtspUrlOf, NewRtspUrl, start.rtspUrl);
    FieldAfter(s, steps, id, StreamPathOf, NewStreamPath, start.streamPath);
    FieldAfter(s, steps, id, EnabledOf, NewEnabled, start.enabled);
    FieldAfter(s, steps, id, OnvifUrlOf, NewOnvifUrl, start.onvifUrl);
    FieldAfter(s, steps, id, UsernameOf, NewUsername, start.onvifUsername);
    FieldAfter(s, steps, id, PasswordOf, NewPassword, start.onvifPassword);
    FieldAfter(s, steps, id, MotionOf, NewMotion, start.motionDetection);
  }

  /** What the node's entry for a camera holds, field by field, is what was last given to it. */
  ghost predicate EntryLastGiven(steps: seq<Step>, start: Camera, c: NodeCameraConfig) {
    exists row: Camera ::
      && row.id == c.id && AllLastGiven(steps, start, row)
      && HasFields(c, row.name, row.rtspUrl, row.streamPath, row.enabled, row.onvifUrl, row.onvifUsername,
                   row.onvifPassword, row.motionDetection)
  }

  /** Replica convergence down to the fields: at an idle session of a good run the node's entry for a camera has in
      each field the value of the last commit that gave one, whatever was pushed in between and by whom. `start`
      is the row at the beginning, if there was one. */
  lemma IdleEntryLastGiven(init: State, steps: seq<Step>, k: nat, id: Uuid, start: Camera)
    requires Init(init) && Runs(init, steps) && GoodRun(init, steps) && Idle(Exec(init, steps), k)
    requires id in init.db ==> start == init.db[id]
    ensures var t, n := Exec(init, steps), Exec(init, steps).sessions[k].node;
            && (Lookup(ListOf(t, n), id).Some? <==> id in t.db && t.db[id].nodeId == n)
            && (Lookup(ListOf(t, n), id).Some? ==>
                  Lookup(ListOf(t, n), id).value.id == id && EntryLastGiven(steps, start, Lookup(ListOf(t, n), id).value))
  {
    var t, n := Exec(init, steps), Exec(init, steps).sessions[k].node;
    Convergence(init, steps, k);
    InitInv(init);
    RunInv(init, steps);
    assert Lookup(ListOf(t, n), id) == RowConfig(t.db, n, id);
    if id in t.db && t.db[id].nodeId == n {
      RowAfter(init, steps, id, start);
      EntryOf(steps, start, t.db[id]);
    }
  }

  lemma EntryOf(steps: seq<Step>, start: Camera, row: Camera)
    requires AllLastGiven(steps, start, row)
    ensures ConfigOf(row).id == row.id && EntryLastGiven(steps, start, ConfigOf(row))
  {
    assert HasFields(ConfigOf(row), row.name, row.rtspUrl, row.streamPath, row.enabled, row.onvifUrl, row.onvifUsername,
                     row.onvifPassword, row.motionDetection);
  }
}
