/** The `recordings` table as the node sessions change it (coordinator/src/routes/node_ws.rs). */
module Recordings {
  import opened Common
  import opened SegmentNames

  datatype Row = Row(cameraId: Uuid, nodeId: Uuid, storageUri: string, endedAt: int,
                     durationSecs: int, sizeBytes: nat, policy: Option<Uuid>)

  datatype SegmentMigrated = SegmentMigrated(recordingId: Uuid, startedAt: int, storageUri: string)

  function KeyOf(seg: SegmentPayload): Key {
    Key(seg.id, seg.startedAt)
  }

  function RowOf(seg: SegmentPayload, nodeId: Uuid, policy: Option<Uuid>): Row {
    Row(seg.cameraId, nodeId, seg.storageUri, seg.endedAt, seg.durationSecs, seg.sizeBytes, policy)
  }

  /** COALESCE(camera's policy, default policy), or nothing for an unknown camera. */
  function PolicyFor(cameraPolicies: map<Uuid, Option<Uuid>>, camera: Uuid, default: Option<Uuid>): Option<Uuid> {
    if camera !in cameraPolicies then None
    else if cameraPolicies[camera].Some? then cameraPolicies[camera]
    else default
  }

  /** The frame's camera, URI, end, duration and size, the session's node, and the camera's own policy if it has
      one, else the default, else none. */
  predicate IsRowFor(row: Row, seg: SegmentPayload, nodeId: Uuid, cameraPolicies: map<Uuid, Option<Uuid>>, default: Option<Uuid>) {
    && row.cameraId == seg.cameraId && row.storageUri == seg.storageUri && row.endedAt == seg.endedAt
    && row.durationSecs == seg.durationSecs && row.sizeBytes == seg.sizeBytes && row.nodeId == nodeId
    && (seg.cameraId !in cameraPolicies ==> row.policy == None)
    && (seg.cameraId in cameraPolicies && cameraPolicies[seg.cameraId].Some? ==> row.policy == cameraPolicies[seg.cameraId])
    && (seg.cameraId in cameraPolicies && cameraPolicies[seg.cameraId].None? ==> row.policy == default)
  }

  function Indexed(rows: map<Key, Row>, k: Key, row: Row): map<Key, Row> {
    if k in rows then rows else rows[k := row]
  }

  function Migrated(rows: map<Key, Row>, p: SegmentMigrated): map<Key, Row> {
    var k := Key(p.recordingId, p.startedAt);
    if k in rows then rows[k := rows[k].(storageUri := p.storageUri)] else rows
  }

  class Table {
    var rows: map<Key, Row>

    constructor ()
      ensures rows == map[]
    {
      rows := map[];
    }

    /** INSERT ... ON CONFLICT (id, started_at) DO NOTHING */
    method IndexSegment(seg: SegmentPayload, nodeId: Uuid, cameraPolicies: map<Uuid, Option<Uuid>>, default: Option<Uuid>)
      returns (inserted: bool)
      modifies this
      ensures inserted <==> KeyOf(seg) !in old(rows)
      ensures rows == Indexed(old(rows), KeyOf(seg), RowOf(seg, nodeId, PolicyFor(cameraPolicies, seg.cameraId, default)))
      ensures inserted ==> KeyOf(seg) in rows && IsRowFor(rows[KeyOf(seg)], seg, nodeId, cameraPolicies, default)
    {
      var policy := PolicyFor(cameraPolicies, seg.cameraId, default);
      inserted := KeyOf(seg) !in rows;
      if inserted {
        rows := rows[KeyOf(seg) := RowOf(seg, nodeId, policy)];
      }
    }

    /** UPDATE ... SET storage_uri WHERE id AND started_at; updates nothing when the row is missing. */
    method UpdateSegmentUri(p: SegmentMigrated) returns (found: bool)
      modifies this
      ensures found <==> Key(p.recordingId, p.startedAt) in old(rows)
      ensures rows == Migrated(old(rows), p)
      ensures rows.Keys == old(rows).Keys
      ensures forall k | k in rows ::
                if k == Key(p.recordingId, p.startedAt) then rows[k] == old(rows)[k].(storageUri := p.storageUri)
                else rows[k] == old(rows)[k]
    {
      var k := Key(p.recordingId, p.startedAt);
      found := k in rows;
      if found {
        rows := rows[k := rows[k].(storageUri := p.storageUri)];
      }
    }
  }

  /** Indexing a new key stores the frame's row under the frame's id and start, and no other row changes. */
  lemma IndexedFields(rows: map<Key, Row>, seg: SegmentPayload, nodeId: Uuid, cameraPolicies: map<Uuid, Option<Uuid>>, default: Option<Uuid>)
    requires Key(seg.id, seg.startedAt) !in rows
    ensures var t := Indexed(rows, KeyOf(seg), RowOf(seg, nodeId, PolicyFor(cameraPolicies, seg.cameraId, default)));
            && t.Keys == rows.Keys + {Key(seg.id, seg.startedAt)} && (forall k | k in rows :: t[k] == rows[k])
            && IsRowFor(t[Key(seg.id, seg.startedAt)], seg, nodeId, cameraPolicies, default)
  {
  }

  /** A notice changes the URI of its row and nothing else. */
  lemma MigratedFields(rows: map<Key, Row>, p: SegmentMigrated)
    ensures Migrated(rows, p).Keys == rows.Keys
    ensures forall k | k in rows ::
              Migrated(rows, p)[k]
              == if k == Key(p.recordingId, p.startedAt)
                 then Row(rows[k].cameraId, rows[k].nodeId, p.storageUri, rows[k].endedAt, rows[k].durationSecs,
                          rows[k].sizeBytes, rows[k].policy)
                 else rows[k]
  {
  }

  /** A repeated SegmentComplete changes nothing, whatever happened to the row in between. */
  lemma IndexIdempotent(rows: map<Key, Row>, k: Key, row: Row, p: SegmentMigrated)
    ensures Indexed(Indexed(rows, k, row), k, row) == Indexed(rows, k, row)
    ensures Indexed(Migrated(Indexed(rows, k, row), p), k, row) == Migrated(Indexed(rows, k, row), p)
  {
  }

  /** The order of a report and a migration notice matters exactly if they are about one row, it is missing, and
      the notice would move it. */
  lemma NoticeOrderIff(rows: map<Key, Row>, k: Key, row: Row, p: SegmentMigrated)
    ensures Indexed(Migrated(rows, p), k, row) == Migrated(Indexed(rows, k, row), p)
       <==> k in rows || k != Key(p.recordingId, p.startedAt) || row.storageUri == p.storageUri
  {
    if k != Key(p.recordingId, p.startedAt) {
      assert Indexed(Migrated(rows, p), k, row) == Migrated(Indexed(rows, k, row), p);
    } else if k !in rows {
      assert Indexed(Migrated(rows, p), k, row)[k].storageUri == row.storageUri;
    }
  }

  /** The two messages do not commute on a missing row: a migration notice that arrives first is lost. */
  lemma EarlyNoticeIsLost(rows: map<Key, Row>, k: Key, row: Row, p: SegmentMigrated)
    requires k == Key(p.recordingId, p.startedAt) && k !in rows && row.storageUri != p.storageUri
    ensures Indexed(Migrated(rows, p), k, row)[k].storageUri == row.storageUri
    ensures Migrated(Indexed(rows, k, row), p)[k].storageUri == p.storageUri
  {
  }
}
