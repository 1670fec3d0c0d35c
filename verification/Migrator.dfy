/** One migration pass over the recordings directory (node/src/storage/mod.rs). */
module Migrator {
  import opened Common
  import opened SegmentNames
  import opened Recordings

  /** Old enough, and named by a start time. */
  predicate Eligible(f: SegmentFile, now: int, cutoff: int, env: Env) {
    env.parseTime(f.stem).Some? && now - env.parseTime(f.stem).value >= cutoff
  }

  /** What the surroundings answer: the files whose PUT succeeds, and those whose removal does. */
  datatype Outcome = Outcome(put: set<SegmentFile>, remove: set<SegmentFile>)

  function NoticeOf(f: SegmentFile, env: Env): SegmentMigrated
    requires env.parseTime(f.stem).Some?
  {
    SegmentMigrated(MigratorKey(f, env).id, MigratorKey(f, env).startedAt, S3Uri(f, env.bucket))
  }

  /** A node's recordings directory, the shared bucket with whose bytes each URI holds, and the notices sent. */
  datatype Contents = Contents(disk: set<SegmentFile>, objects: map<string, Segment>, notices: seq<SegmentMigrated>)

  /** `migrate_segment`: read, upload, notify, remove; an error ends it where it happens. */
  function AfterOne(c: Contents, node: Uuid, f: SegmentFile, env: Env, outcome: Outcome): Contents
    requires env.parseTime(f.stem).Some?
  {
    if f !in c.disk || f !in outcome.put then c
    else Contents(if f in outcome.remove then c.disk - {f} else c.disk,
                  c.objects[S3Uri(f, env.bucket) := Segment(node, f)], c.notices + [NoticeOf(f, env)])
  }

  function AfterPass(c: Contents, node: Uuid, listing: seq<SegmentFile>, now: int, cutoff: int, env: Env, outcome: Outcome): Contents {
    if listing == [] then c
    else
      var f, before := listing[|listing| - 1], AfterPass(c, node, listing[..|listing| - 1], now, cutoff, env, outcome);
      if Eligible(f, now, cutoff, env) then AfterOne(before, node, f, env, outcome) else before
  }

  class Store {
    const node: Uuid
    var disk: set<SegmentFile>
    var objects: map<string, Segment>
    var notices: seq<SegmentMigrated>

    function Value(): Contents
      reads this
    {
      Contents(disk, objects, notices)
    }

    constructor (node: Uuid, disk: set<SegmentFile>, objects: map<string, Segment>)
      ensures this.node == node && Value() == Contents(disk, objects, [])
    {
      this.node, this.disk, this.objects, notices := node, disk, objects, [];
    }

    method MigrateSegment(f: SegmentFile, env: Env, outcome: Outcome) returns (ok: bool)
      requires env.parseTime(f.stem).Some?
      modifies this
      ensures ok <==> f in old(disk) && f in outcome.put && f in outcome.remove
      ensures Value() == AfterOne(old(Value()), node, f, env, outcome)
    {
      if f !in disk {
        return false;
      }
      var newUri := S3Uri(f, env.bucket);
      if f !in outcome.put {
        return false;
      }
      objects := objects[newUri := Segment(node, f)];
      notices := notices + [SegmentMigrated(env.uuid5(MigratorUri(f)), env.parseTime(f.stem).value, newUri)];
      ok := f in outcome.remove;
      if ok {
        disk := disk - {f};
      }
    }

    /** `migrate_pass`: a file that fails does not stop the others. */
    method MigratePass(listing: seq<SegmentFile>, now: int, cutoff: int, env: Env, outcome: Outcome)
      modifies this
      ensures Value() == AfterPass(old(Value()), node, listing, now, cutoff, env, outcome)
    {
      var i := 0;
      while i < |listing|
        invariant 0 <= i <= |listing|
        invariant Value() == AfterPass(old(Value()), node, listing[..i], now, cutoff, env, outcome)
      {
        var f := listing[i];
        assert listing[..i + 1][..i] == listing[..i];
        if env.parseTime(f.stem).Some? && now - env.parseTime(f.stem).value >= cutoff {
          var _ := MigrateSegment(f, env, outcome);
        }
        i := i + 1;
      }
      assert listing[..i] == listing;
    }
  }

  // ---- What a pass achieves ----

  /** The files a pass uploads. */
  function Uploaded(c: Contents, listing: seq<SegmentFile>, now: int, cutoff: int, env: Env, outcome: Outcome): set<SegmentFile> {
    set f | f in listing && f in c.disk && Eligible(f, now, cutoff, env) && f in outcome.put
  }

  predicate Distinct(listing: seq<SegmentFile>) {
    forall i, j | 0 <= i < j < |listing| :: listing[i] != listing[j]
  }

  /** No later file of the listing is uploaded to the same object. */
  predicate LastOfUri(listing: seq<SegmentFile>, i: nat, uploaded: set<SegmentFile>, bucket: string)
    requires i < |listing|
  {
    forall j | i < j < |listing| && listing[j] in uploaded :: S3Uri(listing[j], bucket) != S3Uri(listing[i], bucket)
  }

  /** The object at `u` is the one of file `f`. */
  predicate Holds(objects: map<string, Segment>, u: string, node: Uuid, f: SegmentFile) {
    u in objects && objects[u] == Segment(node, f)
  }

  lemma UploadedSnoc(c: Contents, init: seq<SegmentFile>, f: SegmentFile, now: int, cutoff: int, env: Env, outcome: Outcome)
    ensures Uploaded(c, init + [f], now, cutoff, env, outcome)
         == Uploaded(c, init, now, cutoff, env, outcome)
            + (if f in c.disk && Eligible(f, now, cutoff, env) && f in outcome.put then {f} else {})
  {
  }

  /** The disk loses exactly what was uploaded and could be removed. */
  lemma {:induction false} PassRemoves(c: Contents, node: Uuid, listing: seq<SegmentFile>, now: int, cutoff: int, env: Env, outcome: Outcome)
    requires Distinct(listing)
    ensures AfterPass(c, node, listing, now, cutoff, env, outcome).disk
         == c.disk - (Uploaded(c, listing, now, cutoff, env, outcome) * outcome.remove)
    decreases |listing|
  {
    if listing != [] {
      var init, f := listing[..|listing| - 1], listing[|listing| - 1];
      PassRemoves(c, node, init, now, cutoff, env, outcome);
      assert listing == init + [f];
      UploadedSnoc(c, init, f, now, cutoff, env, outcome);
      assert f !in init;
    }
  }

  /** Of the uploaded files exactly the last of each URI have their bytes in the bucket afterwards, and objects
      nothing was uploaded to stay as they were. */
  lemma {:induction false} PassStores(c: Contents, node: Uuid, listing: seq<SegmentFile>, now: int, cutoff: int, env: Env, outcome: Outcome)
    requires Distinct(listing)
    ensures var after, up := AfterPass(c, node, listing, now, cutoff, env, outcome).objects,
                             Uploaded(c, listing, now, cutoff, env, outcome);
            && (forall i | 0 <= i < |listing| && listing[i] in up ::
                  Holds(after, S3Uri(listing[i], env.bucket), node, listing[i]) <==> LastOfUri(listing, i, up, env.bucket))
            && (forall u | u !in Uris(up, env.bucket) ::
                  (u in after <==> u in c.objects) && (u in after ==> after[u] == c.objects[u]))
            && Uris(up, env.bucket) <= after.Keys
    decreases |listing|
  {
    if listing != [] {
      var init, f := listing[..|listing| - 1], listing[|listing| - 1];
      PassStores(c, node, init, now, cutoff, env, outcome);
      PassRemoves(c, node, init, now, cutoff, env, outcome);
      assert listing == init + [f];
      UploadedSnoc(c, init, f, now, cutoff, env, outcome);
      assert f !in init;
      var up, before := Uploaded(c, listing, now, cutoff, env, outcome), Uploaded(c, init, now, cutoff, env, outcome);
      forall i | 0 <= i < |init| && init[i] in before
        ensures LastOfUri(listing, i, up, env.bucket) <==>
                LastOfUri(init, i, before, env.bucket) && (f in up ==> S3Uri(f, env.bucket) != S3Uri(init[i], env.bucket))
      {
        LastSnoc(init, f, i, before, up, env.bucket);
      }
    }
  }

  function Uris(files: set<SegmentFile>, bucket: string): set<string> {
    set f | f in files :: S3Uri(f, bucket)
  }

  lemma LastSnoc(init: seq<SegmentFile>, f: SegmentFile, i: nat, before: set<SegmentFile>, up: set<SegmentFile>, bucket: string)
    requires i < |init| && f !in init && before <= up <= before + {f}
    ensures LastOfUri(init + [f], i, up, bucket) <==>
            LastOfUri(init, i, before, bucket) && (f in up ==> S3Uri(f, bucket) != S3Uri(init[i], bucket))
  {
    var listing := init + [f];
    assert listing[|init|] == f && forall j | 0 <= j < |init| :: listing[j] == init[j] && init[j] != f;
  }

  /** Nothing leaves the disk before its upload succeeded and its notice was sent; a file's own bytes are in the
      bucket then, unless a later file of the pass went to the same object. */
  lemma PassIsSafe(c: Contents, node: Uuid, listing: seq<SegmentFile>, now: int, cutoff: int, env: Env, outcome: Outcome)
    requires Distinct(listing)
    ensures var after, up := AfterPass(c, node, listing, now, cutoff, env, outcome), Uploaded(c, listing, now, cutoff, env, outcome);
            && after.disk <= c.disk
            && (forall f | f in c.disk && f !in after.disk ::
                  f in up && Eligible(f, now, cutoff, env) && NoticeOf(f, env) in after.notices)
            && (forall i | 0 <= i < |listing| && listing[i] in c.disk && listing[i] !in after.disk ::
                  Holds(after.objects, S3Uri(listing[i], env.bucket), node, listing[i]) <==> LastOfUri(listing, i, up, env.bucket))
  {
    PassRemoves(c, node, listing, now, cutoff, env, outcome);
    PassStores(c, node, listing, now, cutoff, env, outcome);
    PassNotifies(c, node, listing, now, cutoff, env, outcome);
  }

  /** One notice for each uploaded file in listing order, after the earlier ones. */
  lemma {:induction false} PassNotifies(c: Contents, node: Uuid, listing: seq<SegmentFile>, now: int, cutoff: int, env: Env, outcome: Outcome)
    requires Distinct(listing)
    ensures var after := AfterPass(c, node, listing, now, cutoff, env, outcome);
            after.notices == c.notices + Notices(listing, Uploaded(c, listing, now, cutoff, env, outcome), env)
    ensures forall f | f in Uploaded(c, listing, now, cutoff, env, outcome) ::
              NoticeOf(f, env) in AfterPass(c, node, listing, now, cutoff, env, outcome).notices
    decreases |listing|
  {
    if listing != [] {
      var init, f := listing[..|listing| - 1], listing[|listing| - 1];
      PassNotifies(c, node, init, now, cutoff, env, outcome);
      PassRemoves(c, node, init, now, cutoff, env, outcome);
      assert listing == init + [f];
      UploadedSnoc(c, init, f, now, cutoff, env, outcome);
      assert f !in init;
      NoticesSame(init, Uploaded(c, init, now, cutoff, env, outcome), Uploaded(c, listing, now, cutoff, env, outcome), env);
    }
  }

  function Notices(listing: seq<SegmentFile>, uploaded: set<SegmentFile>, env: Env): seq<SegmentMigrated>
    requires forall f | f in uploaded :: env.parseTime(f.stem).Some?
  {
    if listing == [] then []
    else
      var f := listing[|listing| - 1];
      Notices(listing[..|listing| - 1], uploaded, env) + (if f in uploaded then [NoticeOf(f, env)] else [])
  }

  lemma {:induction false} NoticesSame(listing: seq<SegmentFile>, a: set<SegmentFile>, b: set<SegmentFile>, env: Env)
    requires a <= b && (forall f | f in b :: env.parseTime(f.stem).Some?) && forall f | f in listing :: f in a <==> f in b
    ensures Notices(listing, a, env) == Notices(listing, b, env)
    decreases |listing|
  {
    if listing != [] {
      assert listing == listing[..|listing| - 1] + [listing[|listing| - 1]];
      NoticesSame(listing[..|listing| - 1], a, b, env);
    }
  }

  /** Exactly the listed files are uploaded that are on the disk, have a readable start at least `cutoff` seconds
      back, and whose PUT succeeds. */
  lemma UploadedIff(c: Contents, listing: seq<SegmentFile>, now: int, cutoff: int, env: Env, outcome: Outcome, f: SegmentFile)
    ensures f in Uploaded(c, listing, now, cutoff, env, outcome) <==>
            && f in listing && f in c.disk && f in outcome.put
            && exists start :: env.parseTime(f.stem) == Some(start) && start <= now - cutoff
  {
    if env.parseTime(f.stem).Some? {
      assert env.parseTime(f.stem) == Some(env.parseTime(f.stem).value);
    }
  }

  /** A notice carries the version-5 UUID of the local URI rebuilt from the path, the start in the name, and the
      bucket and path as the new URI. */
  lemma NoticeExact(f: SegmentFile, env: Env)
    requires env.parseTime(f.stem).Some?
    ensures NoticeOf(f, env).recordingId == env.uuid5("local://" + RelPath(f))
    ensures Some(NoticeOf(f, env).startedAt) == env.parseTime(f.stem)
    ensures NoticeOf(f, env).storageUri == "s3://" + env.bucket + "/" + RelPath(f)
  {
  }
}
