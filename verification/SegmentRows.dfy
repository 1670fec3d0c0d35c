/** What the recordings table says about the segments of all nodes, over the runs of the segment lifecycle. */
module SegmentRows {
  import opened Common
  import opened Messages
  import opened SegmentNames
  import opened Recordings
  import opened SegmentLifecycle
  import opened Strings

  /** What the lifecycle takes a report to carry is what the recorder pushes and the index makes of it: any payload
      that describes the file gives such a row, under the file's key. */
  lemma ReportIsIndexed(s: State, seg: Segment, cameras: seq<NodeCameraConfig>, size: nat, env: Env,
                        p: SegmentPayload, policy: Option<Uuid>)
    requires seg in s.created && Describes(p, seg.file, cameras, size, env)
    ensures Enabled(s, Report(seg, RowOf(p, seg.node, policy)), env) && KeyOf(p) == RecorderKey(seg.file, env)
  {
  }

  // ---- Each segment its own row ----

  /** Recorder and migrator name the segment alike. */
  predicate NamedAlike(seg: Segment, env: Env)
    requires Migratable(seg, env)
  {
    MigratorKey(seg.file, env) == RecorderKey(seg.file, env)
  }

  predicate OwnedBy(s: State, k: Key, seg: Segment) {
    k in s.owners && s.owners[k] == seg
  }

  /** Row `k` is its owner's: reported by the owner's node, and its URI is the owner's local URI, or the owner's
      S3 URI and the object there holds the owner's bytes. */
  ghost predicate RowTrue(s: State, k: Key, env: Env) {
    && k in s.rows && k in s.owners
    && var owner := s.owners[k];
       && owner in s.created && Migratable(owner, env) && k == RecorderKey(owner.file, env)
       && s.rows[k].nodeId == owner.node
       && (s.rows[k].storageUri == RecorderUri(owner.file)
           || (s.rows[k].storageUri == S3Uri(owner.file, env.bucket) && InS3(s, owner, env)))
  }

  /** Every row is true, and no segment's key is taken by another segment. */
  ghost predicate RowsRight(s: State, env: Env) {
    && (forall k | k in s.rows :: RowTrue(s, k, env))
    && (forall seg | seg in s.created && Migratable(seg, env) && RecorderKey(seg.file, env) in s.rows ::
          OwnedBy(s, RecorderKey(seg.file, env), seg))
  }

  /** The ways in which `f` gets in the way of `g`: it takes its row, moves its row, or overwrites the object its
      row points to. */
  predicate Confused(f: Segment, g: Segment, env: Env)
    requires Migratable(f, env) && Migratable(g, env)
  {
    || RecorderKey(f.file, env) == RecorderKey(g.file, env)
    || MigratorKey(f.file, env) == RecorderKey(g.file, env)
    || (S3Uri(f.file, env.bucket) == S3Uri(g.file, env.bucket) && NamedAlike(g, env))
  }

  predicate RowsSeparate(segs: set<Segment>, env: Env) {
    forall f, g | f in segs && g in segs && Migratable(f, env) && Migratable(g, env) && f != g :: !Confused(f, g, env)
  }

  /** Row `k` is about its owner, the bytes aside. */
  ghost predicate RowNamed(s: State, k: Key, env: Env) {
    && k in s.rows && k in s.owners
    && var owner := s.owners[k];
       && owner in s.created && Migratable(owner, env) && k == RecorderKey(owner.file, env)
       && s.rows[k].nodeId == owner.node
       && (s.rows[k].storageUri == RecorderUri(owner.file)
           || (s.rows[k].storageUri == S3Uri(owner.file, env.bucket) && NamedAlike(owner, env)))
  }

  ghost predicate ReportsOwned(s: State, env: Env) {
    && (forall m | m in s.wire && m.Complete? ::
          && m.seg in s.created && Migratable(m.seg, env)
          && m.row.nodeId == m.seg.node && m.row.storageUri == RecorderUri(m.seg.file))
    && (forall p | p in s.announced :: exists seg :: NoticeOf(s, p, seg, env))
  }

  ghost predicate NoticeOf(s: State, p: SegmentMigrated, seg: Segment, env: Env) {
    seg in s.closed && Migratable(seg, env) && p == NoticeFor(seg.file, env)
  }

  ghost predicate Owned(s: State, env: Env) {
    Tidy(s, env) && ReportsOwned(s, env) && forall k | k in s.rows :: RowNamed(s, k, env)
  }

  lemma ReportsStep(s: State, step: Step, env: Env)
    requires Owned(s, env) && Enabled(s, step, env)
    ensures ReportsOwned(Do(s, step, env), env)
  {
    AnnouncedStep(s, step, env);
  }

  lemma AnnouncedStep(s: State, step: Step, env: Env)
    requires MigrationsTidy(s, env) && Enabled(s, step, env)
    requires forall p | p in s.announced :: exists seg :: NoticeOf(s, p, seg, env)
    ensures forall p | p in Do(s, step, env).announced :: exists seg :: NoticeOf(Do(s, step, env), p, seg, env)
  {
    var t := Do(s, step, env);
    forall p | p in t.announced ensures exists seg :: NoticeOf(t, p, seg, env) {
      if p in s.announced {
        var seg :| NoticeOf(s, p, seg, env);
        assert NoticeOf(t, p, seg, env);
      } else {
        assert NoticeOf(t, p, Segment(step.node, s.migrations[step.node].file), env);
      }
    }
  }

  lemma RelocateStep(s: State, m: Message, env: Env)
    requires Owned(s, env) && RowsSeparate(s.created, env) && Enabled(s, Relocate(m), env)
    ensures forall k | k in Do(s, Relocate(m), env).rows :: RowNamed(Do(s, Relocate(m), env), k, env)
  {
    var t := Do(s, Relocate(m), env);
    var seg :| NoticeOf(s, m.payload, seg, env);
    forall k | k in t.rows ensures RowNamed(t, k, env) {
      assert RowNamed(s, k, env);
      if k == MigratorKey(seg.file, env) {
        assert !Confused(seg, s.owners[k], env) || seg == s.owners[k];
      }
    }
  }

  lemma RowsStep(s: State, step: Step, env: Env)
    requires Owned(s, env) && RowsSeparate(s.created, env) && Enabled(s, step, env)
    ensures forall k | k in Do(s, step, env).rows :: RowNamed(Do(s, step, env), k, env)
  {
    if step.Relocate? {
      RelocateStep(s, step.message, env);
    } else {
      var t := Do(s, step, env);
      forall k | k in t.rows ensures RowNamed(t, k, env) {
        assert k in s.rows ==> RowNamed(s, k, env);
      }
    }
  }

  lemma {:induction false} RunOwned(s: State, steps: seq<Step>, env: Env)
    requires Owned(s, env) && Runs(s, steps, env) && RowsSeparate(Exec(s, steps, env).created, env)
    ensures Owned(Exec(s, steps, env), env)
    decreases |steps|
  {
    if steps != [] {
      SegmentsGrow(s, steps, env);
      RowsStep(s, steps[0], env);
      ReportsStep(s, steps[0], env);
      StepTidy(s, steps[0], env);
      RunOwned(Do(s, steps[0], env), steps[1..], env);
    }
  }

  lemma OwnedIsRight(s: State, env: Env)
    requires Owned(s, env) && RowsSeparate(s.created, env)
    ensures RowsRight(s, env)
  {
    forall k | k in s.rows ensures RowTrue(s, k, env) {
      assert RowNamed(s, k, env);
      var owner := s.owners[k];
      if s.rows[k].storageUri != RecorderUri(owner.file) {
        Schemes(owner.file, env.bucket);
        var other := s.objects[S3Uri(owner.file, env.bucket)];
        assert other == owner || !Confused(other, owner, env);
      }
    }
    forall seg | seg in s.created && Migratable(seg, env) && RecorderKey(seg.file, env) in s.rows
      ensures OwnedBy(s, RecorderKey(seg.file, env), seg)
    {
      assert RowNamed(s, RecorderKey(seg.file, env), env);
      var owner := s.owners[RecorderKey(seg.file, env)];
      assert owner == seg || !Confused(owner, seg, env);
    }
  }

  /** Every run that creates only these segments keeps the table right. */
  ghost predicate AlwaysRight(segs: set<Segment>, env: Env) {
    forall steps: seq<Step> | Runs(Init(), steps, env) && Exec(Init(), steps, env).created <= segs ::
      RowsRight(Exec(Init(), steps, env), env)
  }

  /** One row per segment, in any order and repetition of messages: rows and segments correspond and no row
      changes hands, exactly if no two segments, on whatever nodes, get in each other's way. */
  lemma OneRowPerSegmentIff(segs: set<Segment>, env: Env)
    ensures AlwaysRight(segs, env) <==> RowsSeparate(segs, env)
  {
    if RowsSeparate(segs, env) {
      forall steps: seq<Step> | Runs(Init(), steps, env) && Exec(Init(), steps, env).created <= segs
        ensures RowsRight(Exec(Init(), steps, env), env)
      {
        RunOwned(Init(), steps, env);
        OwnedIsRight(Exec(Init(), steps, env), env);
      }
    } else {
      var f, g :| f in segs && g in segs && Migratable(f, env) && Migratable(g, env) && f != g && Confused(f, g, env);
      var steps := ConfusedRun(f, g, env);
    }
  }

  /** For recordings one directory deep both conditions come to the same: no two nodes close a file of the same
      directory and start time. */
  lemma FlatSeparateIff(segs: set<Segment>, env: Env)
    requires env.Injective() && forall seg | seg in segs :: Migratable(seg, env) && Flat(seg.file)
    ensures RowsSeparate(segs, env) <==> forall f, g | f in segs && g in segs && f.file == g.file :: f == g
    ensures ObjectsSeparate(segs, env) <==> forall f, g | f in segs && g in segs && f.file == g.file :: f == g
  {
    forall f, g | f in segs && g in segs
      ensures Confused(f, g, env) <==> f.file == g.file
      ensures S3Uri(f.file, env.bucket) == S3Uri(g.file, env.bucket) <==> f.file == g.file
    {
      FlatNamesIff(f.file, g.file, env);
      KeysAgreeIff(f.file, env);
    }
  }

  // ---- What happens otherwise ----

  function SampleRow(seg: Segment): Row {
    Row(0, seg.node, RecorderUri(seg.file), 0, SEGMENT_SECS, 0, None)
  }

  /** `f` and `g` are closed and `g` is reported and indexed. */
  lemma Indexes(f: Segment, g: Segment, env: Env) returns (steps: seq<Step>)
    requires f != g && Migratable(f, env) && Migratable(g, env)
    ensures Runs(Init(), steps, env)
    ensures var k := RecorderKey(g.file, env);
            Exec(Init(), steps, env) == Init().(created := {f, g}, closed := {f, g}, disk := {f, g},
                                                wire := {Complete(g, SampleRow(g))},
                                                rows := map[k := SampleRow(g)], owners := map[k := g])
  {
    var a := CloseBoth(f, g, env);
    RunsSnoc(Init(), a, Report(g, SampleRow(g)), env);
    var b := a + [Report(g, SampleRow(g))];
    RunsSnoc(Init(), b, Index(Complete(g, SampleRow(g))), env);
    steps := b + [Index(Complete(g, SampleRow(g)))];
  }

  /** The one notice in a node's channel is sent and applied. */
  lemma Relocated(before: seq<Step>, n: Uuid, p: SegmentMigrated, env: Env) returns (steps: seq<Step>)
    requires Runs(Init(), before, env) && Outbox(Exec(Init(), before, env), n) == [p]
    ensures Runs(Init(), steps, env)
    ensures var s, t := Exec(Init(), before, env), Exec(Init(), steps, env);
            t == s.(outbox := s.outbox[n := []], wire := s.wire + {Notice(p)}, rows := Migrated(s.rows, p))
  {
    assert [p][1..] == [];
    RunsSnoc(Init(), before, Transmit(n, true), env);
    assert Notice(p) in Do(Exec(Init(), before, env), Transmit(n, true), env).wire;
    var b := before + [Transmit(n, true)];
    RunsSnoc(Init(), b, Relocate(Notice(p)), env);
    steps := b + [Relocate(Notice(p))];
  }

  /** The missing row: another segment has taken the key, and no report of `f` changes the table. */
  lemma MissingRowRun(f: Segment, g: Segment, env: Env) returns (steps: seq<Step>)
    requires f != g && Migratable(f, env) && Migratable(g, env)
    requires RecorderKey(f.file, env) == RecorderKey(g.file, env)
    ensures Runs(Init(), steps, env)
    ensures var t, m := Exec(Init(), steps, env), Complete(f, SampleRow(f));
            && t.created == {f, g} && m in t.wire && !RowsRight(t, env)
            && Do(t, Index(m), env).rows == t.rows && OwnedBy(t, RecorderKey(f.file, env), g)
  {
    var a := Indexes(f, g, env);
    RunsSnoc(Init(), a, Report(f, SampleRow(f)), env);
    steps := a + [Report(f, SampleRow(f))];
  }

  /** The moved row: the notice of `f` moves the row of `g` to an object with the bytes of `f`. */
  lemma MovedRowRun(f: Segment, g: Segment, env: Env) returns (steps: seq<Step>)
    requires f != g && Migratable(f, env) && Migratable(g, env)
    requires MigratorKey(f.file, env) == RecorderKey(g.file, env)
    ensures Runs(Init(), steps, env)
    ensures var t, k := Exec(Init(), steps, env), RecorderKey(g.file, env);
            && t.created == {f, g} && !RowsRight(t, env)
            && k in t.rows && OwnedBy(t, k, g) && g in t.disk
            && t.rows[k].storageUri in t.objects && t.objects[t.rows[k].storageUri] == f
  {
    var a := Indexes(f, g, env);
    var b := Migrates(a, f, env);
    steps := Relocated(b, f.node, NoticeFor(f.file, env), env);
    Schemes(f.file, env.bucket);
    Schemes(g.file, env.bucket);
    assert !RowTrue(Exec(Init(), steps, env), RecorderKey(g.file, env), env);
  }

  /** The overwritten object: the row of `g` points to the bytes of `f`. */
  lemma OverwrittenRowRun(f: Segment, g: Segment, env: Env) returns (steps: seq<Step>)
    requires f != g && Migratable(f, env) && Migratable(g, env)
    requires S3Uri(f.file, env.bucket) == S3Uri(g.file, env.bucket) && NamedAlike(g, env)
    ensures Runs(Init(), steps, env)
    ensures var t, k := Exec(Init(), steps, env), RecorderKey(g.file, env);
            && t.created == {f, g} && !RowsRight(t, env)
            && k in t.rows && OwnedBy(t, k, g) && g !in t.disk
            && t.rows[k].storageUri in t.objects && t.objects[t.rows[k].storageUri] == f
  {
    var a := Indexes(f, g, env);
    var b := Migrates(a, g, env);
    var c := Relocated(b, g.node, NoticeFor(g.file, env), env);
    RunsSnoc(Init(), c, RemoveLocal(g.node, true), env);
    var d := c + [RemoveLocal(g.node, true)];
    steps := Migrates(d, f, env);
    Schemes(g.file, env.bucket);
    assert !RowTrue(Exec(Init(), steps, env), RecorderKey(g.file, env), env);
  }

  lemma ConfusedRun(f: Segment, g: Segment, env: Env) returns (steps: seq<Step>)
    requires f != g && Migratable(f, env) && Migratable(g, env) && Confused(f, g, env)
    ensures Runs(Init(), steps, env)
    ensures Exec(Init(), steps, env).created == {f, g} && !RowsRight(Exec(Init(), steps, env), env)
  {
    if RecorderKey(f.file, env) == RecorderKey(g.file, env) {
      steps := MissingRowRun(f, g, env);
    } else if MigratorKey(f.file, env) == RecorderKey(g.file, env) {
      steps := MovedRowRun(f, g, env);
    } else {
      steps := OverwrittenRowRun(f, g, env);
    }
  }

  /** Two nodes with a camera of the same stream path, and files that start in the same second: the second
      node's file gets no row, its notice moves the other's, and its upload overwrites the other's bytes. */
  lemma TwoNodesCollide(a: Uuid, b: Uuid, file: SegmentFile, env: Env)
    requires a != b && Migratable(Segment(a, file), env) && Flat(file)
    ensures var f, g := Segment(a, file), Segment(b, file);
            && RecorderKey(f.file, env) == RecorderKey(g.file, env)
            && MigratorKey(f.file, env) == RecorderKey(g.file, env)
            && S3Uri(f.file, env.bucket) == S3Uri(g.file, env.bucket) && NamedAlike(g, env)
            && !AlwaysRight({f, g}, env) && !AlwaysSafe({f, g}, env)
  {
    var f, g := Segment(a, file), Segment(b, file);
    UrisAgreeIff(file);
    assert f in {f, g} && g in {f, g};
    assert !RowsSeparate({f, g}, env) by {
      assert Confused(f, g, env);
    }
    assert !ObjectsSeparate({f, g}, env);
    OneRowPerSegmentIff({f, g}, env);
    MigrationSafetyIff({f, g}, env);
  }

  // ---- Which rows there are ----

  /** The step makes sure that row `k` is there. */
  predicate IndexesKey(step: Step, k: Key, env: Env) {
    && step.Index? && step.message.Complete? && env.parseTime(step.message.seg.file.stem).Some?
    && RecorderKey(step.message.seg.file, env) == k
  }

  predicate Expires(step: Step, k: Key) {
    step.Expire? && step.key == k
  }

  /** Row `k` does not expire from position `i` on. */
  predicate Unexpired(steps: seq<Step>, k: Key, i: nat) {
    forall j | i <= j < |steps| :: !Expires(steps[j], k)
  }

  /** A row is there exactly if it was indexed, or there to begin with, and has not expired since. */
  lemma {:induction false} RowThereIff(s: State, steps: seq<Step>, k: Key, env: Env)
    requires Runs(s, steps, env)
    ensures k in Exec(s, steps, env).rows <==>
            ((k in s.rows && Unexpired(steps, k, 0))
             || exists i :: 0 <= i < |steps| && IndexesKey(steps[i], k, env) && Unexpired(steps, k, i + 1))
    decreases |steps|
  {
    if steps != [] {
      var t, rest := Do(s, steps[0], env), steps[1..];
      RowThereIff(t, rest, k, env);
      forall i: nat | i <= |rest| ensures Unexpired(rest, k, i) <==> Unexpired(steps, k, i + 1) {
        UnexpiredTail(steps, k, i);
      }
      assert k in t.rows <==> (k in s.rows && !Expires(steps[0], k)) || IndexesKey(steps[0], k, env);
      if i :| 0 <= i < |rest| && IndexesKey(rest[i], k, env) && Unexpired(rest, k, i + 1) {
        assert IndexesKey(steps[i + 1], k, env) && Unexpired(steps, k, i + 1 + 1);
      }
      if i :| 1 <= i < |steps| && IndexesKey(steps[i], k, env) && Unexpired(steps, k, i + 1) {
        assert IndexesKey(rest[i - 1], k, env) && Unexpired(rest, k, i - 1 + 1);
      }
      assert Unexpired(steps, k, 0) <==> !Expires(steps[0], k) && Unexpired(steps, k, 1);
    }
  }

  lemma UnexpiredTail(steps: seq<Step>, k: Key, i: nat)
    requires steps != [] && i <= |steps| - 1
    ensures Unexpired(steps[1..], k, i) <==> Unexpired(steps, k, i + 1)
  {
    if Unexpired(steps[1..], k, i) {
      assert forall j | i + 1 <= j < |steps| :: steps[j] == steps[1..][j - 1];
    }
  }

  /** So a SegmentComplete that arrives again after its row expired brings the row back, local URI and all. */
  lemma ExpiredRowReturns(s: State, m: Message, reached: bool, env: Env)
    requires m in s.wire && m.Complete? && env.parseTime(m.seg.file.stem).Some?
    requires RecorderKey(m.seg.file, env) in s.rows
    ensures Runs(s, [Expire(RecorderKey(m.seg.file, env), reached), Index(m)], env)
    ensures var t := Exec(s, [Expire(RecorderKey(m.seg.file, env), reached), Index(m)], env);
            RecorderKey(m.seg.file, env) in t.rows && t.rows[RecorderKey(m.seg.file, env)] == m.row
  {
    var k := RecorderKey(m.seg.file, env);
    var s1 := Do(s, Expire(k, reached), env);
    assert [Expire(k, reached), Index(m)][1..] == [Index(m)];
    assert [Index(m)][1..] == [];
    assert Exec(s1, [Index(m)], env) == Do(s1, Index(m), env);
  }

  // ---- What an expired row leaves behind ----

  /** A DeleteRecording reaches the file it is about exactly if that is one directory deep. */
  lemma DiskUriIff(f: SegmentFile)
    ensures DiskUri(f) == RecorderUri(f) <==> |f.dirs| == 1
  {
    RecorderUriForm(f);
    CancelPrefix("local://", Join(f.Components()), ShortPath(f));
    if |f.dirs| == 0 {
      assert Join(f.Components()) == f.Filename();
    } else if |f.dirs| > 1 {
      JoinLength(f.Components());
    } else {
      assert f.Components()[1..] == [f.Filename()];
      assert Join(f.Components()) == ShortPath(f);
    }
  }

  predicate BytesThere(s: State, seg: Segment, env: Env) {
    seg in s.disk || InS3(s, seg, env)
  }

  /** The row of a segment expires and its owner is told, if the node is there: exactly the bytes that stand in S3,
      or on the disk under an S3 URI, or on the disk not one directory deep, or on the disk of a node that is not
      there, are left behind. Nothing else in the system deletes an object. */
  lemma ExpiryLeavesIff(s: State, k: Key, reached: bool, env: Env)
    requires RowTrue(s, k, env)
    ensures Enabled(s, Expire(k, reached), env)
    ensures Do(s, Expire(k, reached), env).wire
         == s.wire + (if reached then {DeleteRequest(s.rows[k].nodeId, s.rows[k].storageUri)} else {})
    ensures var seg, uri, t := s.owners[k], s.rows[k].storageUri, Do(s, Expire(k, reached), env);
            var u := if reached then Do(t, HandleDelete(DeleteRequest(s.rows[k].nodeId, uri)), env) else t;
            BytesThere(u, seg, env) <==>
              InS3(s, seg, env) || (seg in s.disk && (!reached || uri != RecorderUri(seg.file) || |seg.file.dirs| != 1))
  {
    var seg := s.owners[k];
    DiskUriIff(seg.file);
    Schemes(seg.file, env.bucket);
    assert DiskUri(seg.file)[0] == 'l';
  }

  /** An object is never deleted, and changes hands only by another upload to its URI. */
  lemma {:induction false} ObjectsStay(s: State, steps: seq<Step>, seg: Segment, env: Env)
    requires Tidy(s, env) && Runs(s, steps, env) && InS3(s, seg, env)
    requires ObjectsSeparate(Exec(s, steps, env).closed, env)
    ensures InS3(Exec(s, steps, env), seg, env)
    decreases |steps|
  {
    if steps != [] {
      var t := Do(s, steps[0], env);
      StepTidy(s, steps[0], env);
      SegmentsGrow(s, steps, env);
      SegmentsGrow(t, steps[1..], env);
      assert t.objects[S3Uri(seg.file, env.bucket)] == seg;
      ObjectsStay(t, steps[1..], seg, env);
    }
  }

  // ---- From local to S3 and never back ----

  predicate Relocates(step: Step, k: Key) {
    step.Relocate? && step.message.Notice? && Key(step.message.payload.recordingId, step.message.payload.startedAt) == k
  }

  /** Row `k` is there all along. */
  predicate Stays(s: State, steps: seq<Step>, env: Env, k: Key)
    requires Runs(s, steps, env)
    decreases |steps|
  {
    k in s.rows && (steps == [] || Stays(Do(s, steps[0], env), steps[1..], env, k))
  }

  ghost predicate NoticesAreS3(s: State) {
    forall p | p in s.announced :: IsS3(p.storageUri)
  }

  lemma StepNotices(s: State, step: Step, env: Env)
    requires NoticesAreS3(s) && Enabled(s, step, env)
    ensures NoticesAreS3(Do(s, step, env))
  {
    if step.SendNotice? {
      Schemes(s.migrations[step.node].file, env.bucket);
    }
  }

  /** While a row exists, its URI is an S3 URI exactly if it was one before or a notice for the row arrived. */
  lemma {:induction false} MovesOnceToS3(s: State, steps: seq<Step>, env: Env, k: Key)
    requires NoticesAreS3(s) && NoticesTidy(s) && Runs(s, steps, env) && Stays(s, steps, env, k)
    ensures k in Exec(s, steps, env).rows
    ensures IsS3(Exec(s, steps, env).rows[k].storageUri)
        <==> IsS3(s.rows[k].storageUri) || exists j :: 0 <= j < |steps| && Relocates(steps[j], k)
    decreases |steps|
  {
    if steps != [] {
      var t := Do(s, steps[0], env);
      StepNotices(s, steps[0], env);
      NoticesStep(s, steps[0], env);
      assert IsS3(t.rows[k].storageUri) <==> IsS3(s.rows[k].storageUri) || Relocates(steps[0], k);
      MovesOnceToS3(t, steps[1..], env, k);
      if j :| 0 <= j < |steps| && Relocates(steps[j], k) {
        assert j > 0 ==> steps[1..][j - 1] == steps[j];
      }
      if j :| 0 <= j < |steps[1..]| && Relocates(steps[1..][j], k) {
        assert steps[j + 1] == steps[1..][j];
      }
    }
  }

  /** A local URI carries no such promise: after the upload, notice and removal leave the row on a file that is
      gone, and a notice that is never delivered leaves it so. */
  lemma LocalUriDangles(s: State, n: Uuid, env: Env)
    requires n in s.migrations && s.migrations[n].Uploaded? && env.parseTime(s.migrations[n].file.stem).Some?
    requires RecorderKey(s.migrations[n].file, env) in s.rows
    requires !IsS3(s.rows[RecorderKey(s.migrations[n].file, env)].storageUri)
    ensures Runs(s, [SendNotice(n), RemoveLocal(n, true)], env)
    ensures var t, f := Exec(s, [SendNotice(n), RemoveLocal(n, true)], env), s.migrations[n].file;
            && Segment(n, f) !in t.disk
            && RecorderKey(f, env) in t.rows && !IsS3(t.rows[RecorderKey(f, env)].storageUri)
  {
    var s1 := Do(s, SendNotice(n), env);
    assert [SendNotice(n), RemoveLocal(n, true)][1..] == [RemoveLocal(n, true)];
    assert [RemoveLocal(n, true)][1..] == [];
    assert Exec(s1, [RemoveLocal(n, true)], env) == Do(s1, RemoveLocal(n, true), env);
  }

  // ---- Which dangling rows can be mended ----

  /** The notice waits in some node's channel, or a link has it. */
  ghost predicate InFlight(s: State, p: SegmentMigrated) {
    Notice(p) in s.wire || exists n :: n in s.outbox && p in s.outbox[n]
  }

  /** Row and object of the segment have found each other. */
  predicate Mended(s: State, seg: Segment, env: Env)
    requires Migratable(seg, env)
  {
    var k := RecorderKey(seg.file, env);
    k in s.rows && s.rows[k].storageUri == S3Uri(seg.file, env.bucket)
  }

  /** The segment is gone from its disk, is not being migrated, and its notice is lost. */
  ghost predicate NoticeLost(s: State, seg: Segment, env: Env)
    requires Migratable(seg, env)
  {
    && seg in s.closed && seg !in s.disk
    && (seg.node in s.migrations ==> s.migrations[seg.node].file != seg.file)
    && !InFlight(s, NoticeFor(seg.file, env))
  }

  lemma LostStep(s: State, step: Step, seg: Segment, env: Env)
    requires Owned(s, env) && Enabled(s, step, env) && RowsSeparate(Do(s, step, env).created, env)
    requires Migratable(seg, env) && NamedAlike(seg, env) && NoticeLost(s, seg, env) && !Mended(s, seg, env)
    ensures NoticeLost(Do(s, step, env), seg, env) && !Mended(Do(s, step, env), seg, env)
  {
    if step.SendNotice? {
      var other := Segment(step.node, s.migrations[step.node].file);
      assert other == seg || !Confused(other, seg, env);
    }
    LostInFlight(s, step, NoticeFor(seg.file, env), env);
    NeverMended(s, step, seg, env);
  }

  lemma NeverMended(s: State, step: Step, seg: Segment, env: Env)
    requires ReportsOwned(s, env) && Enabled(s, step, env) && Migratable(seg, env) && NamedAlike(seg, env)
    requires !InFlight(s, NoticeFor(seg.file, env)) && !Mended(s, seg, env)
    ensures !Mended(Do(s, step, env), seg, env)
  {
    Schemes(seg.file, env.bucket);
    if step.Index? {
      Schemes(step.message.seg.file, env.bucket);
    }
  }

  /** A notice comes under way only by being announced. */
  lemma LostInFlight(s: State, step: Step, p: SegmentMigrated, env: Env)
    requires Enabled(s, step, env) && !InFlight(s, p)
    requires step.SendNotice? ==> NoticeFor(s.migrations[step.node].file, env) != p
    ensures !InFlight(Do(s, step, env), p)
  {
    var t := Do(s, step, env);
    forall n | n in t.outbox ensures p !in t.outbox[n] {
      if n in s.outbox {
        assert p !in s.outbox[n];
      }
    }
    if step.Transmit? {
      assert s.outbox[step.node][0] in s.outbox[step.node];
    }
  }

  /** Once its notice is lost, a vanished segment's row never finds the object, in any continuation: as long as it
      is there it names a file that is gone. */
  lemma {:induction false} LostNoticeDangles(s: State, steps: seq<Step>, seg: Segment, env: Env)
    requires Owned(s, env) && Runs(s, steps, env) && RowsSeparate(Exec(s, steps, env).created, env)
    requires Migratable(seg, env) && NamedAlike(seg, env) && NoticeLost(s, seg, env) && !Mended(s, seg, env)
    ensures var t, k := Exec(s, steps, env), RecorderKey(seg.file, env);
            && NoticeLost(t, seg, env) && !Mended(t, seg, env)
            && (k in t.rows ==> t.rows[k].storageUri == RecorderUri(seg.file) && seg !in t.disk)
    decreases |steps|
  {
    if steps == [] {
      var k := RecorderKey(seg.file, env);
      if k in s.rows {
        assert RowNamed(s, k, env);
        assert s.owners[k] == seg || !Confused(s.owners[k], seg, env);
      }
    } else {
      SegmentsGrow(Do(s, steps[0], env), steps[1..], env);
      SegmentsGrow(s, [steps[0]], env);
      LostStep(s, steps[0], seg, env);
      RowsStep(s, steps[0], env);
      ReportsStep(s, steps[0], env);
      StepTidy(s, steps[0], env);
      LostNoticeDangles(Do(s, steps[0], env), steps[1..], seg, env);
    }
  }

  /** The channel of node `n` is sent up to position `i`, and the notice there is applied. */
  lemma {:induction false} SendUpTo(s: State, n: Uuid, i: nat, env: Env) returns (steps: seq<Step>)
    requires n in s.outbox && i < |s.outbox[n]|
    ensures Runs(s, steps, env)
    ensures var t := Exec(s, steps, env); t.created == s.created && t.rows == Migrated(s.rows, s.outbox[n][i])
    decreases i
  {
    if i == 0 {
      steps := [Transmit(n, true)] + [Relocate(Notice(s.outbox[n][0]))];
      RunsCons(Do(s, Transmit(n, true), env), Relocate(Notice(s.outbox[n][0])), [], env);
      RunsCons(s, Transmit(n, true), [Relocate(Notice(s.outbox[n][0]))] + [], env);
    } else {
      var rest := SendUpTo(Do(s, Transmit(n, false), env), n, i - 1, env);
      RunsCons(s, Transmit(n, false), rest, env);
      steps := [Transmit(n, false)] + rest;
    }
  }

  lemma RunsCons(s: State, step: Step, rest: seq<Step>, env: Env)
    requires Enabled(s, step, env) && Runs(Do(s, step, env), rest, env)
    ensures Runs(s, [step] + rest, env) && Exec(s, [step] + rest, env) == Exec(Do(s, step, env), rest, env)
  {
    assert ([step] + rest)[1..] == rest;
  }

  /** The continuation mends the row without creating anything that gets in its way. */
  ghost predicate Mends(s: State, steps: seq<Step>, seg: Segment, env: Env)
    requires Migratable(seg, env)
  {
    Runs(s, steps, env) && RowsSeparate(Exec(s, steps, env).created, env) && Mended(Exec(s, steps, env), seg, env)
  }

  /** A row whose segment has vanished can be mended exactly if the notice is still under way. */
  lemma MendableIff(before: seq<Step>, seg: Segment, env: Env)
    requires Runs(Init(), before, env) && RowsSeparate(Exec(Init(), before, env).created, env)
    requires Migratable(seg, env) && NamedAlike(seg, env) && Vanished(Exec(Init(), before, env), seg)
    requires RecorderKey(seg.file, env) in Exec(Init(), before, env).rows && !Mended(Exec(Init(), before, env), seg, env)
    ensures (exists steps :: Mends(Exec(Init(), before, env), steps, seg, env))
       <==> InFlight(Exec(Init(), before, env), NoticeFor(seg.file, env))
  {
    var s, p := Exec(Init(), before, env), NoticeFor(seg.file, env);
    RunOwned(Init(), before, env);
    if InFlight(s, p) {
      var steps := MendingSteps(s, p, env);
      assert Mends(s, steps, seg, env);
    } else if steps :| Mends(s, steps, seg, env) {
      LostNoticeDangles(s, steps, seg, env);
    }
  }

  /** A notice under way can be brought home. */
  lemma MendingSteps(s: State, p: SegmentMigrated, env: Env) returns (steps: seq<Step>)
    requires InFlight(s, p)
    ensures Runs(s, steps, env)
    ensures Exec(s, steps, env).created == s.created && Exec(s, steps, env).rows == Migrated(s.rows, p)
  {
    if Notice(p) in s.wire {
      steps := [Relocate(Notice(p))] + [];
      RunsCons(s, Relocate(Notice(p)), [], env);
    } else {
      var n :| n in s.outbox && p in s.outbox[n];
      var i :| 0 <= i < |s.outbox[n]| && s.outbox[n][i] == p;
      steps := SendUpTo(s, n, i, env);
    }
  }

  /** A node that restarts right after the removal loses the notice for good. */
  lemma CrashLosesNotice(g: Segment, env: Env) returns (steps: seq<Step>)
    requires Migratable(g, env)
    ensures Runs(Init(), steps, env)
    ensures var t := Exec(Init(), steps, env);
            && Vanished(t, g) && RecorderKey(g.file, env) in t.rows && !Mended(t, g, env)
            && NoticeFor(g.file, env) in t.announced && !InFlight(t, NoticeFor(g.file, env))
  {
    var a := Indexes(Segment(g.node + 1, g.file), g, env);
    var b := Migrates(a, g, env);
    RunsSnoc(Init(), b, RemoveLocal(g.node, true), env);
    var c := b + [RemoveLocal(g.node, true)];
    RunsSnoc(Init(), c, NodeCrash(g.node), env);
    steps := c + [NodeCrash(g.node)];
    Schemes(g.file, env.bucket);
  }
}
