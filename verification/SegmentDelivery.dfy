/**
 * From the recorders' pushes to the recordings table: the flush protocol on every node composed with the one
 * idempotent index at the coordinator. Delivery of accepted frames is the one assumption; frames of all nodes
 * may arrive in any order and repeatedly, and the table may hold rows already.
 */
module SegmentDelivery {
  import opened Common
  import opened SegmentNames
  import opened Messages
  import opened Recordings
  import opened SegmentQueue
  import opened FlushProtocol
  import opened FlushLosses

  /** A SegmentComplete on the session of a node. */
  datatype Arrival = Arrival(node: Uuid, payload: SegmentPayload)

  /** The policies by which the index fills in a row. */
  datatype Context = Context(cameraPolicies: map<Uuid, Option<Uuid>>, default: Option<Uuid>)

  function RowIn(a: Arrival, c: Context): Row {
    RowOf(a.payload, a.node, PolicyFor(c.cameraPolicies, a.payload.cameraId, c.default))
  }

  /** The table after indexing the frames in order of arrival. */
  function IndexAll(rows: map<Key, Row>, arrivals: seq<Arrival>, c: Context): map<Key, Row>
    decreases |arrivals|
  {
    if arrivals == [] then rows
    else IndexAll(Indexed(rows, KeyOf(arrivals[0].payload), RowIn(arrivals[0], c)), arrivals[1..], c)
  }

  /** The first frame to arrive for a key. */
  function FirstFor(arrivals: seq<Arrival>, k: Key): (r: Option<Arrival>)
    ensures r.Some? ==> r.value in arrivals && KeyOf(r.value.payload) == k
    ensures r.None? ==> forall a | a in arrivals :: KeyOf(a.payload) != k
  {
    if arrivals == [] then None
    else if KeyOf(arrivals[0].payload) == k then Some(arrivals[0])
    else FirstFor(arrivals[1..], k)
  }

  /** Existing rows stay, and every other row is made from the first frame for its key. */
  lemma {:induction false} IndexAllEffect(rows: map<Key, Row>, arrivals: seq<Arrival>, c: Context)
    ensures var t := IndexAll(rows, arrivals, c);
            && (forall k | k in rows :: k in t && t[k] == rows[k])
            && (forall k | k !in rows :: k in t <==> FirstFor(arrivals, k).Some?)
            && (forall k | k !in rows && FirstFor(arrivals, k).Some? :: t[k] == RowIn(FirstFor(arrivals, k).value, c))
    decreases |arrivals|
  {
    if arrivals != [] {
      IndexAllEffect(Indexed(rows, KeyOf(arrivals[0].payload), RowIn(arrivals[0], c)), arrivals[1..], c);
    }
  }

  /** Both sequences hold the same frames, however often and in whatever order. */
  ghost predicate SameFrames(a: seq<Arrival>, b: seq<Arrival>) {
    forall x :: x in a <==> x in b
  }

  /** Frames that share a key the table lacks make the same row. */
  predicate RowsDetermined(rows: map<Key, Row>, arrivals: seq<Arrival>, c: Context) {
    forall x, y | x in arrivals && y in arrivals && KeyOf(x.payload) == KeyOf(y.payload) && KeyOf(x.payload) !in rows ::
      RowIn(x, c) == RowIn(y, c)
  }

  /** Order and repetition do not matter exactly if frames that share a missing key make the same row. */
  lemma ArrivalOrderIff(rows: map<Key, Row>, a: seq<Arrival>, c: Context)
    ensures (forall b: seq<Arrival> | SameFrames(a, b) :: IndexAll(rows, b, c) == IndexAll(rows, a, c))
       <==> RowsDetermined(rows, a, c)
  {
    if RowsDetermined(rows, a, c) {
      forall b: seq<Arrival> | SameFrames(a, b) ensures IndexAll(rows, b, c) == IndexAll(rows, a, c) {
        SameTable(rows, a, b, c);
      }
    } else {
      var b := OtherOrder(rows, a, c);
    }
  }

  lemma OtherOrder(rows: map<Key, Row>, a: seq<Arrival>, c: Context) returns (b: seq<Arrival>)
    requires !RowsDetermined(rows, a, c)
    ensures SameFrames(a, b) && IndexAll(rows, b, c) != IndexAll(rows, a, c)
  {
    var x, y :| x in a && y in a && KeyOf(x.payload) == KeyOf(y.payload) && KeyOf(x.payload) !in rows
                && RowIn(x, c) != RowIn(y, c);
    FirstDecides(rows, a, x, y, c);
    b := if IndexAll(rows, [x] + a, c) != IndexAll(rows, a, c) then [x] + a else [y] + a;
    RepeatedFirst(a, x);
    RepeatedFirst(a, y);
  }

  lemma RepeatedFirst(a: seq<Arrival>, x: Arrival)
    requires x in a
    ensures SameFrames(a, [x] + a)
  {
  }

  lemma FirstDecides(rows: map<Key, Row>, a: seq<Arrival>, x: Arrival, y: Arrival, c: Context)
    requires KeyOf(x.payload) == KeyOf(y.payload) && KeyOf(x.payload) !in rows && RowIn(x, c) != RowIn(y, c)
    ensures IndexAll(rows, [x] + a, c) != IndexAll(rows, [y] + a, c)
  {
    IndexAllEffect(rows, [x] + a, c);
    IndexAllEffect(rows, [y] + a, c);
    assert IndexAll(rows, [x] + a, c)[KeyOf(x.payload)] == RowIn(x, c);
  }

  lemma SameTable(rows: map<Key, Row>, a: seq<Arrival>, b: seq<Arrival>, c: Context)
    requires SameFrames(a, b) && RowsDetermined(rows, a, c)
    ensures IndexAll(rows, b, c) == IndexAll(rows, a, c)
  {
    IndexAllEffect(rows, a, c);
    IndexAllEffect(rows, b, c);
    var s, t := IndexAll(rows, a, c), IndexAll(rows, b, c);
    forall k ensures (k in s <==> k in t) && (k in s ==> s[k] == t[k]) {
      if k !in rows && FirstFor(a, k).Some? {
        assert FirstFor(a, k).value in b;
      }
    }
  }

  /** A file reported when it is created and again when it is closed keeps the size it had first. */
  lemma EarlySizeStays(rows: map<Key, Row>, node: Uuid, p: SegmentPayload, closedSize: nat, rest: seq<Arrival>, c: Context)
    requires KeyOf(p) !in rows
    ensures var arrivals := [Arrival(node, p), Arrival(node, p.(sizeBytes := closedSize))] + rest;
            KeyOf(p) in IndexAll(rows, arrivals, c) && IndexAll(rows, arrivals, c)[KeyOf(p)].sizeBytes == p.sizeBytes
  {
    IndexAllEffect(rows, [Arrival(node, p), Arrival(node, p.(sizeBytes := closedSize))] + rest, c);
  }

  // ---- All nodes together ----

  /** The runs of the nodes' queues, and the one encoding. */
  datatype Flushes = Flushes(runs: map<Uuid, seq<Step<SegmentPayload>>>, codec: Codec<SegmentPayload>) {
    ghost predicate Valid() {
      codec.Faithful() && codec.OneObject() && forall n | n in runs :: Runs(runs[n], codec)
    }

    ghost function End(n: Uuid): State<SegmentPayload>
      requires Valid() && n in runs
    {
      Exec(runs[n], codec)
    }
  }

  /** Exactly the frames the nodes' sinks accepted arrive. */
  ghost predicate Delivered(flushes: Flushes, arrivals: seq<Arrival>) {
    && flushes.Valid()
    && (forall a :: a in arrivals <==> a.node in flushes.runs && a.payload in flushes.End(a.node).sink)
  }

  ghost predicate SendsKey(flushes: Flushes, n: Uuid, k: Key)
    requires flushes.Valid() && n in flushes.runs
  {
    exists p :: p in flushes.End(n).sink && KeyOf(p) == k
  }

  /** Another node has the row already, or may get it first. */
  ghost predicate Contested(rows: map<Key, Row>, flushes: Flushes, n: Uuid, k: Key)
    requires flushes.Valid()
  {
    if k in rows then rows[k].nodeId != n
    else exists m :: m in flushes.runs && m != n && SendsKey(flushes, m, k)
  }

  predicate RowOfNode(rows: map<Key, Row>, k: Key, n: Uuid) {
    k in rows && rows[k].nodeId == n
  }

  /** Whatever the order of arrival, a segment that node `n` sent has a row of that node exactly if the key is not
      contested. */
  lemma OwnRowIff(rows: map<Key, Row>, flushes: Flushes, n: Uuid, p: SegmentPayload,
                  arrivals: seq<Arrival>, c: Context)
    requires Delivered(flushes, arrivals) && n in flushes.runs && p in flushes.End(n).sink
    ensures (forall order: seq<Arrival> | Delivered(flushes, order) :: RowOfNode(IndexAll(rows, order, c), KeyOf(p), n))
       <==> !Contested(rows, flushes, n, KeyOf(p))
  {
    var k := KeyOf(p);
    if !Contested(rows, flushes, n, k) {
      forall order: seq<Arrival> | Delivered(flushes, order) ensures RowOfNode(IndexAll(rows, order, c), k, n) {
        UncontestedRow(rows, flushes, n, p, order, c);
      }
    } else {
      var order := OtherFirst(rows, flushes, n, k, arrivals, c);
    }
  }

  lemma OtherFirst(rows: map<Key, Row>, flushes: Flushes, n: Uuid, k: Key, arrivals: seq<Arrival>, c: Context) returns (order: seq<Arrival>)
    requires Delivered(flushes, arrivals) && Contested(rows, flushes, n, k)
    ensures Delivered(flushes, order) && !RowOfNode(IndexAll(rows, order, c), k, n)
  {
    order := arrivals;
    if k !in rows {
      var m :| m in flushes.runs && m != n && SendsKey(flushes, m, k);
      var q :| q in flushes.End(m).sink && KeyOf(q) == k;
      order := [Arrival(m, q)] + arrivals;
      assert Delivered(flushes, order);
    }
    IndexAllEffect(rows, order, c);
  }

  lemma UncontestedRow(rows: map<Key, Row>, flushes: Flushes, n: Uuid, p: SegmentPayload,
                       arrivals: seq<Arrival>, c: Context)
    requires Delivered(flushes, arrivals) && n in flushes.runs && p in flushes.End(n).sink
    requires !Contested(rows, flushes, n, KeyOf(p))
    ensures RowOfNode(IndexAll(rows, arrivals, c), KeyOf(p), n)
  {
    var k := KeyOf(p);
    IndexAllEffect(rows, arrivals, c);
    assert Arrival(n, p) in arrivals;
    if k !in rows {
      var first := FirstFor(arrivals, k).value;
      assert first.node in flushes.runs && SendsKey(flushes, first.node, k);
    }
  }

  /** Row `k` is what the index makes of a segment that its node tried to push. */
  ghost predicate FromAttempt(rows: map<Key, Row>, k: Key, flushes: Flushes, c: Context) {
    exists n, p :: n in flushes.runs && p in Attempts(flushes.runs[n]) && k in rows && KeyOf(p) == k && rows[k] == RowIn(Arrival(n, p), c)
  }

  /** End to end: each segment any node tried to push has a row of that node, unless another node contests the key;
      or it can be read from the file, fell in the window of a completed flush, or was spoilt. Old rows stay, and every new
      one comes from an attempt. */
  lemma Delivery(rows: map<Key, Row>, flushes: Flushes, arrivals: seq<Arrival>, c: Context,
                 n: Uuid, i: nat)
    requires Delivered(flushes, arrivals) && n in flushes.runs && i < |flushes.runs[n]| && flushes.runs[n][i].Push?
    ensures var t, after, e := flushes.End(n), IndexAll(rows, arrivals, c), flushes.runs[n][i].entry;
            && (|| (KeyOf(e) in after && (after[KeyOf(e)].nodeId == n || Contested(rows, flushes, n, KeyOf(e))))
                || e in Read(t.content, flushes.codec) || FellInWindow(t, e) || WasSpoilt(t, e))
            && (forall k | k in rows :: k in after && after[k] == rows[k])
            && (forall k | k in after && k !in rows :: FromAttempt(after, k, flushes, c))
  {
    var t, after, e := flushes.End(n), IndexAll(rows, arrivals, c), flushes.runs[n][i].entry;
    IndexAllEffect(rows, arrivals, c);
    EntryAccounted(flushes.runs[n], i, flushes.codec);
    if WentOut(t, e) {
      assert Arrival(n, e) in arrivals;
      if !Contested(rows, flushes, n, KeyOf(e)) {
        UncontestedRow(rows, flushes, n, e, arrivals, c);
      }
    }
    forall k | k in after && k !in rows ensures FromAttempt(after, k, flushes, c) {
      var first := FirstFor(arrivals, k).value;
      SentWasPushed(flushes.runs[first.node], flushes.codec);
      assert first.payload in Attempts(flushes.runs[first.node]);
      assert first == Arrival(first.node, first.payload);
    }
  }

  // ---- From a file to its row ----

  /** The row of a file: whatever describes the file and is first to be indexed under its key, the row names the
      file's directory and name, the first camera with that stream path, the node that sent it, and a minute from
      the start in the key. */
  lemma FileToRow(f: SegmentFile, cameras: seq<NodeCameraConfig>, size: nat, env: Env, n: Uuid, p: SegmentPayload,
                  rows: map<Key, Row>, arrivals: seq<Arrival>, c: Context)
    requires Describes(p, f, cameras, size, env) && RecorderKey(f, env) !in rows
    requires FirstFor(arrivals, RecorderKey(f, env)) == Some(Arrival(n, p))
    ensures var k, after := RecorderKey(f, env), IndexAll(rows, arrivals, c);
            && k in after && KeyOf(p) == k
            && after[k].storageUri == "local://" + f.Components()[0] + "/" + (f.stem + ".mp4")
            && IsFirstCamera(cameras, f.Components()[0], after[k].cameraId) && after[k].nodeId == n
            && after[k].endedAt == k.startedAt + 60 && after[k].durationSecs == 60 && after[k].sizeBytes == size
            && IsRowFor(after[k], p, n, c.cameraPolicies, c.default)
  {
    IndexAllEffect(rows, arrivals, c);
  }
}
