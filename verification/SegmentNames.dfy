/** How the recorder (node/src/recorder/mod.rs) and the migrator (node/src/storage/mod.rs) name a segment. */
module SegmentNames {
  import opened Common
  import opened Messages
  import opened Strings
  import S3Address
  import Utf8
  import SegmentQueue

  /** A closed `.mp4` file below the recordings directory: its directories and the stem of its name. */
  datatype SegmentFile = SegmentFile(dirs: seq<string>, stem: string) {
    function Filename(): string { stem + ".mp4" }

    function Components(): seq<string> { dirs + [Filename()] }
  }

  /** A file together with the node whose disk it was recorded on. No name in this module depends on the node. */
  datatype Segment = Segment(node: Uuid, file: SegmentFile)

  /** What a file system guarantees of path components. */
  predicate IsPath(f: SegmentFile) {
    forall d | d in f.Components() :: d != "" && '/' !in d
  }

  /** The pieces of the environment both sides share: the target bucket, version-5 UUIDs in the URL
      namespace, and the reading of a stem as a start time in seconds. */
  datatype Env = Env(bucket: string, uuid5: string -> Uuid, parseTime: string -> Option<int>) {
    ghost predicate Injective() {
      forall a, b :: uuid5(a) == uuid5(b) ==> a == b
    }
  }

  /** The primary key of `recordings`. */
  datatype Key = Key(id: Uuid, startedAt: int)

  datatype SegmentPayload = SegmentPayload(
    id: Uuid, cameraId: Uuid, streamPath: string, storageUri: string,
    startedAt: int, endedAt: int, durationSecs: int, sizeBytes: nat)

  const SEGMENT_SECS := 60

  function Join(parts: seq<string>): string {
    if parts == [] then "" else if |parts| == 1 then parts[0] else parts[0] + "/" + Join(parts[1..])
  }

  function ReplaceBackslash(s: string): (r: string)
    ensures |r| == |s|
    ensures forall k | 0 <= k < |s| :: r[k] == if s[k] == '\\' then '/' else s[k]
  {
    seq(|s|, i requires 0 <= i < |s| => if s[i] == '\\' then '/' else s[i])
  }

  /** `handle_segment`: the first directory and the file name, nothing in between. */
  function RecorderUri(f: SegmentFile): string {
    "local://" + f.Components()[0] + "/" + f.Filename()
  }

  /** `migrate_segment`: the whole relative path. */
  function RelPath(f: SegmentFile): string {
    ReplaceBackslash(Join(f.Components()))
  }

  function MigratorUri(f: SegmentFile): string {
    "local://" + RelPath(f)
  }

  function S3Uri(f: SegmentFile, bucket: string): string {
    S3Address.PrintUri(bucket, RelPath(f))
  }

  function RecorderKey(f: SegmentFile, env: Env): Key
    requires env.parseTime(f.stem).Some?
  {
    Key(env.uuid5(RecorderUri(f)), env.parseTime(f.stem).value)
  }

  function MigratorKey(f: SegmentFile, env: Env): Key
    requires env.parseTime(f.stem).Some?
  {
    Key(env.uuid5(MigratorUri(f)), env.parseTime(f.stem).value)
  }

  /** The first camera with this stream path. */
  function CameraFor(cameras: seq<NodeCameraConfig>, streamPath: string): Option<Uuid> {
    if cameras == [] then None
    else if cameras[0].streamPath == streamPath then Some(cameras[0].id)
    else CameraFor(cameras[1..], streamPath)
  }

  /** What `handle_segment` does with one file: an error, nothing, or a payload to queue. */
  function SegmentFor(f: SegmentFile, cameras: seq<NodeCameraConfig>, size: nat, env: Env): Result<Option<SegmentPayload>, string> {
    var streamPath := f.Components()[0];
    if env.parseTime(f.stem).None? then Err("cannot parse timestamp")
    else
      match CameraFor(cameras, streamPath)
      case None => Ok(None)
      case Some(camera) =>
        var started := env.parseTime(f.stem).value;
        Ok(Some(SegmentPayload(env.uuid5(RecorderUri(f)), camera, streamPath, RecorderUri(f),
                               started, started + SEGMENT_SECS, SEGMENT_SECS, size)))
  }

  /** A payload that describes the file: its recorder key and URI, the first camera with its stream path, a
      minute from its start. */
  ghost predicate Describes(p: SegmentPayload, f: SegmentFile, cameras: seq<NodeCameraConfig>, size: nat, env: Env) {
    && env.parseTime(f.stem).Some?
    && Key(p.id, p.startedAt) == RecorderKey(f, env) && p.storageUri == RecorderUri(f)
    && p.streamPath == f.Components()[0] && IsFirstCamera(cameras, p.streamPath, p.cameraId)
    && p.endedAt - p.startedAt == p.durationSecs == 60 && p.sizeBytes == size
  }

  /** `handle_segment` pushes exactly if the name has a start time and the stream path a camera, and what it
      pushes describes the file; it signals a flush exactly if the push succeeded. */
  method HandleSegment(f: SegmentFile, cameras: seq<NodeCameraConfig>, size: nat, env: Env,
                       queue: SegmentQueue.Queue<SegmentPayload>, io: SegmentQueue.Io)
    returns (result: Result<Option<SegmentPayload>, string>, flush: bool)
    requires queue.codec.Faithful()
    modifies queue
    ensures var known := exists c | c in cameras :: c.streamPath == f.Components()[0];
            && (result.Err? <==> env.parseTime(f.stem).None? || (known && !io.Written?))
            && (result.Ok? ==> (result.value.Some? <==> known))
            && (if env.parseTime(f.stem).Some? && known
                then exists p :: Describes(p, f, cameras, size, env)
                       && queue.file == SegmentQueue.AfterPush(old(queue.file), p, queue.codec, io)
                       && (result.Ok? ==> result.value == Some(p))
                else queue.file == old(queue.file))
    ensures flush <==> result.Ok? && result.value.Some?
    ensures flush && Utf8.Valid(old(queue.Content())) && SegmentQueue.Terminated(old(queue.Content())) ==>
              queue.Entries() == old(queue.Entries()) + [result.value.value]
  {
    CameraForFound(cameras, f.Components()[0]);
    flush := false;
    match SegmentFor(f, cameras, size, env) {
      case Err(e) => result := Err(e);
      case Ok(None) => result := Ok(None);
      case Ok(Some(payload)) =>
        assert Describes(payload, f, cameras, size, env);
        var ok := queue.Push(payload, io);
        if !ok {
          return Err("cannot write the queue"), false;
        }
        result, flush := Ok(Some(payload)), true;
    }
  }

  predicate FirstAt(cameras: seq<NodeCameraConfig>, streamPath: string, i: int) {
    0 <= i < |cameras| && cameras[i].streamPath == streamPath && forall j | 0 <= j < i :: cameras[j].streamPath != streamPath
  }

  /** The id is that of the first camera with the stream path. */
  ghost predicate IsFirstCamera(cameras: seq<NodeCameraConfig>, streamPath: string, id: Uuid) {
    exists i :: FirstAt(cameras, streamPath, i) && cameras[i].id == id
  }

  lemma {:induction false} CameraForFound(cameras: seq<NodeCameraConfig>, streamPath: string)
    ensures CameraFor(cameras, streamPath).Some? <==> exists c | c in cameras :: c.streamPath == streamPath
    ensures CameraFor(cameras, streamPath).Some? ==>
              IsFirstCamera(cameras, streamPath, CameraFor(cameras, streamPath).value)
  {
    if cameras != [] {
      CameraForFound(cameras[1..], streamPath);
      assert forall c :: c in cameras <==> c == cameras[0] || c in cameras[1..];
      if cameras[0].streamPath == streamPath {
        assert FirstAt(cameras, streamPath, 0);
      } else if CameraFor(cameras, streamPath).Some? {
        var i :| FirstAt(cameras[1..], streamPath, i) && cameras[1..][i].id == CameraFor(cameras, streamPath).value;
        assert FirstAt(cameras, streamPath, i + 1);
      }
    }
  }

  // ---- When the two names agree ----

  /** Exactly one directory deep, and no backslash for the migrator to rewrite. */
  predicate Flat(f: SegmentFile) {
    |f.dirs| == 1 && '\\' !in f.dirs[0] && '\\' !in f.stem
  }

  /** A path is its directories and its name with single slashes between. */
  lemma {:induction false} JoinSnoc(dirs: seq<string>, name: string)
    ensures Join(dirs + [name]) == if dirs == [] then name else Join(dirs) + "/" + name
  {
    if |dirs| == 1 {
      assert (dirs + [name])[1..] == [name];
    } else if |dirs| > 1 {
      assert (dirs + [name])[1..] == dirs[1..] + [name];
      JoinSnoc(dirs[1..], name);
      var tail := "/" + name;
      assert Join(dirs[1..] + [name]) == Join(dirs[1..]) + tail;
      Assoc(dirs[0] + "/", Join(dirs[1..]), tail);
    }
  }

  lemma {:induction false} JoinLength(parts: seq<string>)
    requires |parts| >= 2
    ensures |Join(parts)| >= |parts[0]| + 1 + |parts[|parts| - 1]|
    ensures |parts| > 2 ==> |Join(parts)| > |parts[0]| + 1 + |parts[|parts| - 1]|
  {
    if |parts| > 2 {
      JoinLength(parts[1..]);
    } else {
      assert Join(parts[1..]) == parts[1];
    }
  }

  /** `dir/name`, as both sides see a file one directory deep. */
  function ShortPath(f: SegmentFile): string {
    f.Components()[0] + "/" + f.Filename()
  }

  lemma RecorderUriForm(f: SegmentFile)
    ensures RecorderUri(f) == "local://" + ShortPath(f)
  {
    var c, n := f.Components()[0], f.Filename();
    assert "local://" + c + "/" + n == "local://" + (c + "/" + n);
  }

  lemma ReplaceIdentityIff(s: string)
    ensures ReplaceBackslash(s) == s <==> '\\' !in s
  {
    if '\\' in s {
      var k :| 0 <= k < |s| && s[k] == '\\';
      assert ReplaceBackslash(s)[k] != s[k];
    }
  }

  /** Recorder and migrator compute the same local URI exactly for flat files. */
  lemma UrisAgreeIff(f: SegmentFile)
    ensures RecorderUri(f) == MigratorUri(f) <==> Flat(f)
  {
    var parts, s := f.Components(), ShortPath(f);
    RecorderUriForm(f);
    CancelPrefix("local://", s, RelPath(f));
    if |f.dirs| == 0 {
      assert Join(parts) == f.Filename();
    } else if |f.dirs| > 1 {
      JoinLength(parts);
    } else {
      assert parts[1..] == [f.Filename()];
      assert Join(parts) == s;
      ReplaceIdentityIff(s);
      assert '\\' in s <==> '\\' in f.dirs[0] || '\\' in f.stem;
    }
  }

  /** So a migration finds the row the recorder made exactly for flat files. */
  lemma KeysAgreeIff(f: SegmentFile, env: Env)
    requires env.Injective() && env.parseTime(f.stem).Some?
    ensures RecorderKey(f, env) == MigratorKey(f, env) <==> Flat(f)
  {
    UrisAgreeIff(f);
  }

  /** Flat files never share a recorder key. */
  lemma FlatKeysInjective(f: SegmentFile, g: SegmentFile, env: Env)
    requires env.Injective() && env.parseTime(f.stem).Some? && env.parseTime(g.stem).Some?
    requires IsPath(f) && IsPath(g) && Flat(f) && Flat(g)
    requires RecorderKey(f, env) == RecorderKey(g, env)
    ensures f == g
  {
    FlatPathsInjective(f, g);
  }

  lemma FlatPathsInjective(f: SegmentFile, g: SegmentFile)
    requires IsPath(f) && IsPath(g) && Flat(f) && Flat(g)
    requires RecorderUri(f) == RecorderUri(g)
    ensures f == g
  {
    RecorderUriForm(f);
    RecorderUriForm(g);
    CancelPrefix("local://", ShortPath(f), ShortPath(g));
    assert f.dirs[0] in f.Components() && g.dirs[0] in g.Components();
    SplitUnique('/', f.dirs[0], f.Filename(), g.dirs[0], g.Filename());
    assert f.Filename()[..|f.stem|] == f.stem && g.Filename()[..|g.stem|] == g.stem;
    assert f.dirs == [f.dirs[0]] && g.dirs == [g.dirs[0]];
  }

  /** Nor an object: two flat files, on whatever nodes, share row or object exactly if directory and stem agree. */
  lemma FlatNamesIff(f: SegmentFile, g: SegmentFile, env: Env)
    requires env.Injective() && env.parseTime(f.stem).Some? && env.parseTime(g.stem).Some?
    requires IsPath(f) && IsPath(g) && Flat(f) && Flat(g)
    ensures RecorderKey(f, env) == RecorderKey(g, env) <==> f == g
    ensures S3Uri(f, env.bucket) == S3Uri(g, env.bucket) <==> f == g
  {
    KeysAgreeIff(f, env);
    KeysAgreeIff(g, env);
    if RecorderKey(f, env) == RecorderKey(g, env) {
      FlatKeysInjective(f, g, env);
    }
    if S3Uri(f, env.bucket) == S3Uri(g, env.bucket) {
      S3UriCancel(f, g, env.bucket);
      UrisAgreeIff(f);
      UrisAgreeIff(g);
      FlatPathsInjective(f, g);
    }
  }

  lemma S3UriCancel(f: SegmentFile, g: SegmentFile, bucket: string)
    requires S3Uri(f, bucket) == S3Uri(g, bucket)
    ensures RelPath(f) == RelPath(g)
  {
    CancelPrefix("s3://" + bucket + "/", RelPath(f), RelPath(g));
  }

  /** Deeper files can share one: the second of these two never gets a row. */
  lemma DeepKeysCollide(env: Env, stem: string)
    requires env.parseTime(stem).Some?
    ensures var f, g := SegmentFile(["cam", "a"], stem), SegmentFile(["cam", "b"], stem);
            f != g && RecorderKey(f, env) == RecorderKey(g, env) && !Flat(f) && !Flat(g)
  {
    assert SegmentFile(["cam", "a"], stem).dirs[1] != SegmentFile(["cam", "b"], stem).dirs[1];
  }

  lemma JoinHead(parts: seq<string>)
    requires parts != [] && parts[0] != ""
    ensures Join(parts) != "" && Join(parts)[0] == parts[0][0]
  {
  }

  /** The URI reported for a migrated file downloads from the URL it was uploaded to exactly for a web
      endpoint and a first directory that does not begin with a backslash. */
  lemma MigratedFetchesBackIff(f: SegmentFile, cfg: S3Address.Config)
    requires IsPath(f) && '/' !in cfg.bucket
    ensures S3Address.Presign(cfg, S3Uri(f, cfg.bucket)).Some?
    ensures f.Components()[0] != ""
    ensures (S3Address.Presign(cfg, S3Uri(f, cfg.bucket)).value.base == S3Address.ObjectUrl(cfg, RelPath(f))
             <==> S3Address.WebEndpoint(cfg) && f.Components()[0][0] != '\\')
  {
    var first := f.Components()[0];
    assert first in f.Components();
    JoinHead(f.Components());
    S3Address.UrlsAgreeIff(cfg, RelPath(f));
  }
}
