/**
 * A segment's life across the nodes, the one bucket they share and the coordinator: created and closed on its
 * node's disk, queued, indexed, migrated, culled, expired. A migration notice waits in its node's memory until the
 * link takes it. What the link has taken may arrive in any order, any number of times, or be lost. Neither the key
 * of a row nor the URI of an object says which node a segment is from.
 */
module SegmentLifecycle {
  import opened Common
  import opened SegmentNames
  import opened Recordings

  datatype Message =
    | Complete(seg: Segment, row: Row)
    | Notice(payload: SegmentMigrated)
    | DeleteRequest(node: Uuid, uri: string)

  /** How far a node's `migrate_segment` is with the file at hand. */
  datatype Migration = Read(file: SegmentFile) | Uploaded(file: SegmentFile) | Notified(file: SegmentFile)

  /** `owners` remembers from which segment each row was made, `announced` every notice ever made; nothing in the
      code reads them. */
  datatype State = State(
    created: set<Segment>,
    closed: set<Segment>,                        // every segment ever finished
    disk: set<Segment>,                          // the finished ones still there
    culled: set<Segment>,                        // removed by its node's watchdog
    deleted: set<Segment>,                       // removed by a DeleteRecording
    objects: map<string, Segment>,               // whose bytes each URI holds
    migrations: map<Uuid, Migration>,
    outbox: map<Uuid, seq<SegmentMigrated>>,     // each node's `migrate_tx` channel
    wire: set<Message>,                          // taken by a link and not lost
    rows: map<Key, Row>,
    owners: map<Key, Segment>,
    announced: set<SegmentMigrated>)

  datatype Step =
    | Create(seg: Segment)
    | Close(seg: Segment)
    | Report(seg: Segment, row: Row)
    | BeginMigration(seg: Segment)
    | Put(node: Uuid, stored: bool, confirmed: bool)
    | SendNotice(node: Uuid)
    | RemoveLocal(node: Uuid, ok: bool)
    | Transmit(node: Uuid, ok: bool)
    | NodeCrash(node: Uuid)
    | Cull(seg: Segment)
    | Lose(message: Message)
    | Index(message: Message)
    | Relocate(message: Message)
    | Expire(key: Key, reached: bool)
    | HandleDelete(message: Message)

  /** A path on a disk, and a name both sides can read a start time from. */
  predicate Migratable(seg: Segment, env: Env) {
    IsPath(seg.file) && env.parseTime(seg.file.stem).Some?
  }

  function NoticeFor(f: SegmentFile, env: Env): SegmentMigrated
    requires env.parseTime(f.stem).Some?
  {
    var k := MigratorKey(f, env);
    SegmentMigrated(k.id, k.startedAt, S3Uri(f, env.bucket))
  }

  /** The URI by which a DeleteRecording reaches a file: its path below the recordings directory. */
  function DiskUri(f: SegmentFile): string {
    "local://" + Join(f.Components())
  }

  function Outbox(s: State, n: Uuid): seq<SegmentMigrated> {
    if n in s.outbox then s.outbox[n] else []
  }

  predicate Enabled(s: State, step: Step, env: Env) {
    match step
    case Create(seg) => seg !in s.created && IsPath(seg.file)
    case Close(seg) => seg in s.created && seg !in s.closed
    case Report(seg, row) =>
      && seg in s.created && env.parseTime(seg.file.stem).Some?
      && row.nodeId == seg.node && row.storageUri == RecorderUri(seg.file)
    case BeginMigration(seg) => seg.node !in s.migrations && seg in s.disk && env.parseTime(seg.file.stem).Some?
    case Put(n, stored, confirmed) => n in s.migrations && s.migrations[n].Read? && (confirmed ==> stored)
    case SendNotice(n) =>
      n in s.migrations && s.migrations[n].Uploaded? && env.parseTime(s.migrations[n].file.stem).Some?
    case RemoveLocal(n, _) => n in s.migrations && s.migrations[n].Notified?
    case Transmit(n, _) => Outbox(s, n) != []
    case NodeCrash(_) => true
    case Cull(seg) => seg in s.disk
    case Lose(m) => m in s.wire
    case Index(m) => m in s.wire && m.Complete? && env.parseTime(m.seg.file.stem).Some?
    case Relocate(m) => m in s.wire && m.Notice?
    case Expire(k, _) => k in s.rows
    case HandleDelete(m) => m in s.wire && m.DeleteRequest?
  }

  function Do(s: State, step: Step, env: Env): State
    requires Enabled(s, step, env)
  {
    match step
    case Create(seg) => s.(created := s.created + {seg})
    case Close(seg) => s.(closed := s.closed + {seg}, disk := s.disk + {seg})
    case Report(seg, row) => s.(wire := s.wire + {Complete(seg, row)})
    case BeginMigration(seg) => s.(migrations := s.migrations[seg.node := Read(seg.file)])
    case Put(n, stored, confirmed) =>
      var f := s.migrations[n].file;
      s.(objects := if stored then s.objects[S3Uri(f, env.bucket) := Segment(n, f)] else s.objects,
         migrations := if confirmed then s.migrations[n := Uploaded(f)] else s.migrations - {n})
    case SendNotice(n) =>
      var f := s.migrations[n].file;
      s.(outbox := s.outbox[n := Outbox(s, n) + [NoticeFor(f, env)]], announced := s.announced + {NoticeFor(f, env)},
         migrations := s.migrations[n := Notified(f)])
    case RemoveLocal(n, ok) =>
      s.(disk := if ok then s.disk - {Segment(n, s.migrations[n].file)} else s.disk, migrations := s.migrations - {n})
    case Transmit(n, ok) =>
      s.(outbox := s.outbox[n := s.outbox[n][1..]],
         wire := if ok then s.wire + {Notice(s.outbox[n][0])} else s.wire)
    case NodeCrash(n) => s.(migrations := s.migrations - {n}, outbox := s.outbox - {n})
    case Cull(seg) => s.(disk := s.disk - {seg}, culled := s.culled + {seg})
    case Lose(m) => s.(wire := s.wire - {m})
    case Index(m) =>
      var k := RecorderKey(m.seg.file, env);
      s.(rows := Indexed(s.rows, k, m.row), owners := if k in s.rows then s.owners else s.owners[k := m.seg])
    case Relocate(m) => s.(rows := Migrated(s.rows, m.payload))
    case Expire(k, reached) =>
      s.(rows := s.rows - {k}, owners := s.owners - {k},
         wire := if reached then s.wire + {DeleteRequest(s.rows[k].nodeId, s.rows[k].storageUri)} else s.wire)
    case HandleDelete(m) =>
      var hit := set seg | seg in s.disk && seg.node == m.node && DiskUri(seg.file) == m.uri;
      s.(disk := s.disk - hit, deleted := s.deleted + hit)
  }

  predicate Runs(s: State, steps: seq<Step>, env: Env)
    decreases |steps|
  {
    steps == [] || (Enabled(s, steps[0], env) && Runs(Do(s, steps[0], env), steps[1..], env))
  }

  function Exec(s: State, steps: seq<Step>, env: Env): State
    requires Runs(s, steps, env)
    decreases |steps|
  {
    if steps == [] then s else Exec(Do(s, steps[0], env), steps[1..], env)
  }

  function Init(): State {
    State({}, {}, {}, {}, {}, map[], map[], map[], {}, map[], map[], {})
  }

  predicate IsS3(uri: string) {
    "s3://" <= uri
  }

  lemma Schemes(f: SegmentFile, bucket: string)
    ensures IsS3(S3Uri(f, bucket)) && !IsS3(RecorderUri(f))
  {
    assert RecorderUri(f)[0] == 'l';
    assert S3Uri(f, bucket)[..5] == "s3://";
  }

  lemma {:induction false} SegmentsGrow(s: State, steps: seq<Step>, env: Env)
    requires Runs(s, steps, env)
    ensures s.created <= Exec(s, steps, env).created && s.closed <= Exec(s, steps, env).closed
    decreases |steps|
  {
    if steps != [] {
      SegmentsGrow(Do(s, steps[0], env), steps[1..], env);
    }
  }

  // ---- What holds in every run ----

  /** The bucket holds this very segment. */
  predicate InS3(s: State, seg: Segment, env: Env) {
    S3Uri(seg.file, env.bucket) in s.objects && s.objects[S3Uri(seg.file, env.bucket)] == seg
  }

  /** Closed, and gone from its disk without the watchdog or a DeleteRecording. */
  predicate Vanished(s: State, seg: Segment) {
    seg in s.closed && seg !in s.disk && seg !in s.culled && seg !in s.deleted
  }

  /** Disks and bucket hold closed segments only, each object under its own URI. */
  ghost predicate StorageTidy(s: State, env: Env) {
    && s.disk <= s.closed <= s.created
    && (forall seg | seg in s.created :: IsPath(seg.file))
    && (forall u | u in s.objects ::
          s.objects[u] in s.closed && Migratable(s.objects[u], env) && S3Uri(s.objects[u].file, env.bucket) == u)
  }

  /** A migration is of a closed segment that has not vanished, and past its PUT the object exists. */
  ghost predicate MigrationsTidy(s: State, env: Env) {
    forall n | n in s.migrations ::
      && Segment(n, s.migrations[n].file) in s.closed && Migratable(Segment(n, s.migrations[n].file), env)
      && !Vanished(s, Segment(n, s.migrations[n].file))
      && (s.migrations[n].Read? || S3Uri(s.migrations[n].file, env.bucket) in s.objects)
      && (s.migrations[n].Notified? ==> NoticeFor(s.migrations[n].file, env) in s.announced)
  }

  /** A segment that vanished was announced first, and its URI names an object. */
  ghost predicate VanishedAnnounced(s: State, env: Env) {
    forall seg | Vanished(s, seg) ::
      && Migratable(seg, env) && NoticeFor(seg.file, env) in s.announced
      && S3Uri(seg.file, env.bucket) in s.objects
  }

  /** Every notice under way was announced. */
  ghost predicate NoticesTidy(s: State) {
    && (forall n, i | n in s.outbox && 0 <= i < |s.outbox[n]| :: s.outbox[n][i] in s.announced)
    && (forall m | m in s.wire && m.Notice? :: m.payload in s.announced)
  }

  /** Every S3 URI in a row or a notice names an object whose PUT succeeded. */
  ghost predicate UrisStored(s: State) {
    && (forall k | k in s.rows && IsS3(s.rows[k].storageUri) :: s.rows[k].storageUri in s.objects)
    && (forall p | p in s.announced :: p.storageUri in s.objects)
    && (forall m | m in s.wire && m.Complete? :: !IsS3(m.row.storageUri))
  }

  ghost predicate Tidy(s: State, env: Env) {
    StorageTidy(s, env) && MigrationsTidy(s, env) && VanishedAnnounced(s, env) && NoticesTidy(s) && UrisStored(s)
  }

  lemma StorageStep(s: State, step: Step, env: Env)
    requires StorageTidy(s, env) && MigrationsTidy(s, env) && Enabled(s, step, env)
    ensures StorageTidy(Do(s, step, env), env)
  {
  }

  lemma MigrationsStep(s: State, step: Step, env: Env)
    requires StorageTidy(s, env) && MigrationsTidy(s, env) && Enabled(s, step, env)
    ensures MigrationsTidy(Do(s, step, env), env)
  {
  }

  lemma VanishedStep(s: State, step: Step, env: Env)
    requires Tidy(s, env) && Enabled(s, step, env)
    ensures VanishedAnnounced(Do(s, step, env), env)
  {
  }

  lemma NoticesStep(s: State, step: Step, env: Env)
    requires NoticesTidy(s) && Enabled(s, step, env)
    ensures NoticesTidy(Do(s, step, env))
  {
  }

  lemma UrisStep(s: State, step: Step, env: Env)
    requires NoticesTidy(s) && MigrationsTidy(s, env) && UrisStored(s) && Enabled(s, step, env)
    ensures UrisStored(Do(s, step, env))
  {
    var t := Do(s, step, env);
    assert s.objects.Keys <= t.objects.Keys;
    if step.Report? {
      Schemes(step.seg.file, env.bucket);
    }
    assert forall m | m in t.wire && m.Complete? :: !IsS3(m.row.storageUri);
    assert forall p | p in t.announced :: p.storageUri in t.objects;
  }

  lemma StepTidy(s: State, step: Step, env: Env)
    requires Tidy(s, env) && Enabled(s, step, env)
    ensures Tidy(Do(s, step, env), env)
  {
    StorageStep(s, step, env);
    MigrationsStep(s, step, env);
    VanishedStep(s, step, env);
    NoticesStep(s, step, env);
    UrisStep(s, step, env);
  }

  lemma {:induction false} RunTidy(s: State, steps: seq<Step>, env: Env)
    requires Tidy(s, env) && Runs(s, steps, env)
    ensures Tidy(Exec(s, steps, env), env)
    decreases |steps|
  {
    if steps != [] {
      StepTidy(s, steps[0], env);
      RunTidy(Do(s, steps[0], env), steps[1..], env);
    }
  }

  /** In every reachable state, whatever fails or crashes: a segment that vanished from its disk was announced
      first, and every S3 URI in a row names an object holding a closed segment with that URI. */
  lemma NoticeBeforeRemoval(steps: seq<Step>, env: Env)
    requires Runs(Init(), steps, env)
    ensures var t := Exec(Init(), steps, env);
            && (forall seg | Vanished(t, seg) :: Migratable(seg, env) && NoticeFor(seg.file, env) in t.announced)
            && (forall k | k in t.rows && IsS3(t.rows[k].storageUri) ::
                  var uri := t.rows[k].storageUri;
                  uri in t.objects && t.objects[uri] in t.closed && S3Uri(t.objects[uri].file, env.bucket) == uri)
  {
    RunTidy(Init(), steps, env);
  }

  // ---- Migration safety: no bytes are lost ----

  /** Every closed segment is on its disk or in S3, unless the watchdog or a DeleteRecording removed it. */
  predicate BytesSafe(s: State, env: Env) {
    forall seg | seg in s.closed :: seg in s.disk || InS3(s, seg, env) || seg in s.culled || seg in s.deleted
  }

  /** No two of these segments are uploaded to the same object. */
  predicate ObjectsSeparate(segs: set<Segment>, env: Env) {
    forall f, g | f in segs && g in segs && Migratable(f, env) && Migratable(g, env)
                  && S3Uri(f.file, env.bucket) == S3Uri(g.file, env.bucket) :: f == g
  }

  lemma StorageTidySafe(s: State, env: Env)
    requires Tidy(s, env) && ObjectsSeparate(s.closed, env)
    ensures BytesSafe(s, env)
  {
  }

  /** Every run that closes only these segments keeps their bytes. */
  ghost predicate AlwaysSafe(segs: set<Segment>, env: Env) {
    forall steps: seq<Step> | Runs(Init(), steps, env) && Exec(Init(), steps, env).closed <= segs ::
      BytesSafe(Exec(Init(), steps, env), env)
  }

  /** Migration safety: bytes are never lost exactly if no two segments, on whatever nodes, share an object. */
  lemma MigrationSafetyIff(segs: set<Segment>, env: Env)
    ensures AlwaysSafe(segs, env) <==> ObjectsSeparate(segs, env)
  {
    if ObjectsSeparate(segs, env) {
      forall steps: seq<Step> | Runs(Init(), steps, env) && Exec(Init(), steps, env).closed <= segs
        ensures BytesSafe(Exec(Init(), steps, env), env)
      {
        RunTidy(Init(), steps, env);
        StorageTidySafe(Exec(Init(), steps, env), env);
      }
    } else {
      var f, g :| f in segs && g in segs && Migratable(f, env) && Migratable(g, env)
                  && S3Uri(f.file, env.bucket) == S3Uri(g.file, env.bucket) && f != g;
      var steps := OverwriteRun(f, g, env);
    }
  }

  // ---- Building runs ----

  lemma {:induction false} RunsConcat(s: State, a: seq<Step>, b: seq<Step>, env: Env)
    requires Runs(s, a, env) && Runs(Exec(s, a, env), b, env)
    ensures Runs(s, a + b, env) && Exec(s, a + b, env) == Exec(Exec(s, a, env), b, env)
    decreases |a|
  {
    if a == [] {
      assert a + b == b;
    } else {
      assert (a + b)[1..] == a[1..] + b;
      RunsConcat(Do(s, a[0], env), a[1..], b, env);
    }
  }

  lemma RunsSnoc(s: State, a: seq<Step>, step: Step, env: Env)
    requires Runs(s, a, env) && Enabled(Exec(s, a, env), step, env)
    ensures Runs(s, a + [step], env) && Exec(s, a + [step], env) == Do(Exec(s, a, env), step, env)
  {
    var t := Exec(s, a, env);
    assert [step][1..] == [];
    assert Exec(Do(t, step, env), [], env) == Do(t, step, env);
    RunsConcat(s, a, [step], env);
  }

  /** Two segments are closed. */
  lemma CloseBoth(f: Segment, g: Segment, env: Env) returns (steps: seq<Step>)
    requires f != g && IsPath(f.file) && IsPath(g.file)
    ensures Runs(Init(), steps, env)
    ensures Exec(Init(), steps, env) == Init().(created := {f, g}, closed := {f, g}, disk := {f, g})
  {
    RunsSnoc(Init(), [], Create(f), env);
    var a := [] + [Create(f)];
    RunsSnoc(Init(), a, Create(g), env);
    var b := a + [Create(g)];
    RunsSnoc(Init(), b, Close(f), env);
    var c := b + [Close(f)];
    RunsSnoc(Init(), c, Close(g), env);
    steps := c + [Close(g)];
    assert {f} + {g} == {f, g};
  }

  /** `f` is migrated without a hitch, up to its notice. */
  lemma Migrates(before: seq<Step>, f: Segment, env: Env) returns (steps: seq<Step>)
    requires Runs(Init(), before, env)
    requires f in Exec(Init(), before, env).disk && f.node !in Exec(Init(), before, env).migrations && Migratable(f, env)
    ensures Runs(Init(), steps, env)
    ensures var s, t := Exec(Init(), before, env), Exec(Init(), steps, env);
            t == s.(objects := s.objects[S3Uri(f.file, env.bucket) := f],
                    outbox := s.outbox[f.node := Outbox(s, f.node) + [NoticeFor(f.file, env)]],
                    announced := s.announced + {NoticeFor(f.file, env)},
                    migrations := s.migrations[f.node := Notified(f.file)])
  {
    var s := Exec(Init(), before, env);
    RunsSnoc(Init(), before, BeginMigration(f), env);
    var b := before + [BeginMigration(f)];
    RunsSnoc(Init(), b, Put(f.node, true, true), env);
    var c := b + [Put(f.node, true, true)];
    RunsSnoc(Init(), c, SendNotice(f.node), env);
    steps := c + [SendNotice(f.node)];
    var n, file := f.node, f.file;
    assert s.migrations[n := Read(file)][n := Uploaded(file)][n := Notified(file)] == s.migrations[n := Notified(file)];
  }

  /** `f` is migrated and removed, then `g` is migrated to the same object. */
  lemma OverwriteRun(f: Segment, g: Segment, env: Env) returns (steps: seq<Step>)
    requires f != g && Migratable(f, env) && Migratable(g, env)
    requires S3Uri(f.file, env.bucket) == S3Uri(g.file, env.bucket)
    ensures Runs(Init(), steps, env)
    ensures var t := Exec(Init(), steps, env);
            && t.closed == {f, g} && t.culled == {} && t.deleted == {}
            && f !in t.disk && InS3(t, g, env) && !BytesSafe(t, env)
  {
    var a := CloseBoth(f, g, env);
    var b := Migrates(a, f, env);
    RunsSnoc(Init(), b, RemoveLocal(f.node, true), env);
    var c := b + [RemoveLocal(f.node, true)];
    steps := Migrates(c, g, env);
  }

  // ---- What each step moves ----

  /** A segment is on its disk after a step exactly if it has just been closed, or was there and is not removed by its
      migration, by the watchdog, or by a DeleteRecording with its path. */
  lemma DiskAfter(s: State, step: Step, seg: Segment, env: Env)
    requires Enabled(s, step, env)
    ensures seg in Do(s, step, env).disk <==>
            (step.Close? && step.seg == seg)
            || (seg in s.disk
                && !(step.RemoveLocal? && step.ok && seg == Segment(step.node, s.migrations[step.node].file))
                && !(step.Cull? && step.seg == seg)
                && !(step.HandleDelete? && seg.node == step.message.node && step.message.uri == DiskUri(seg.file)))
  {
  }

  /** Objects change only by a PUT that is stored, which puts the file of that node there. */
  lemma ObjectsAfter(s: State, step: Step, env: Env)
    requires Enabled(s, step, env)
    ensures Do(s, step, env).objects
         == if step.Put? && step.stored
            then s.objects[S3Uri(s.migrations[step.node].file, env.bucket) := Segment(step.node, s.migrations[step.node].file)]
            else s.objects
  {
  }

  /** A link holds a message after a step exactly if it has just been reported, transmitted or requested, or was there
      and is not lost. */
  lemma WireAfter(s: State, step: Step, m: Message, env: Env)
    requires Enabled(s, step, env)
    ensures m in Do(s, step, env).wire <==>
            (step.Report? && m == Complete(step.seg, step.row))
            || (step.Transmit? && step.ok && m == Notice(s.outbox[step.node][0]))
            || (step.Expire? && step.reached && m == DeleteRequest(s.rows[step.key].nodeId, s.rows[step.key].storageUri))
            || (m in s.wire && !(step.Lose? && step.message == m))
  {
  }

  /** A notice waits in a node's channel from its sending until the link takes or drops it, or the node restarts. */
  lemma OutboxAfter(s: State, step: Step, n: Uuid, env: Env)
    requires Enabled(s, step, env)
    ensures Outbox(Do(s, step, env), n)
         == if step.SendNotice? && step.node == n then Outbox(s, n) + [NoticeFor(s.migrations[n].file, env)]
            else if step.Transmit? && step.node == n then Outbox(s, n)[1..]
            else if step.NodeCrash? && step.node == n then []
            else Outbox(s, n)
  {
  }
}
