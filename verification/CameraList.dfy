/** The node's shared camera list and how one incoming message changes it (node/src/ws_client.rs). */
module CameraList {
  import opened Common
  import opened Messages

  /** `list.retain(|c| c.id != id)` */
  function Retain(list: seq<NodeCameraConfig>, id: Uuid): seq<NodeCameraConfig> {
    if list == [] then []
    else (if list[0].id != id then [list[0]] else []) + Retain(list[1..], id)
  }

  /** `iter_mut().find(|c| c.id == c'.id)` followed by the assignment through the reference. */
  function ReplaceFirst(list: seq<NodeCameraConfig>, c: NodeCameraConfig): seq<NodeCameraConfig> {
    if list == [] then []
    else if list[0].id == c.id then [c] + list[1..]
    else [list[0]] + ReplaceFirst(list[1..], c)
  }

  /** What the list says about one camera. */
  function Lookup(list: seq<NodeCameraConfig>, id: Uuid): Option<NodeCameraConfig> {
    if list == [] then None
    else if list[0].id == id then Some(list[0])
    else Lookup(list[1..], id)
  }

  predicate Unique(list: seq<NodeCameraConfig>) {
    forall i, j | 0 <= i < j < |list| :: list[i].id != list[j].id
  }

  /** The list after one message. Messages about recordings and pings leave it alone. */
  function Apply(list: seq<NodeCameraConfig>, m: WsMessage): seq<NodeCameraConfig> {
    match m
    case ConfigSync(cameras) => cameras
    case CameraAdded(c) => Retain(list, c.id) + [c]
    case CameraUpdated(c) => ReplaceFirst(list, c)
    case CameraRemoved(id) => Retain(list, id)
    case _ => list
  }

  /** The same message seen by a single camera: absent or present with a configuration. */
  function CamApply(v: Option<NodeCameraConfig>, m: WsMessage, id: Uuid): Option<NodeCameraConfig> {
    match m
    case ConfigSync(cameras) => Lookup(cameras, id)
    case CameraAdded(c) => if c.id == id then Some(c) else v
    case CameraUpdated(c) => if c.id == id && v.Some? then Some(c) else v
    case CameraRemoved(x) => if x == id then None else v
    case _ => v
  }

  lemma {:induction false} RetainLookup(list: seq<NodeCameraConfig>, id: Uuid, x: Uuid)
    ensures Lookup(Retain(list, id), x) == if x == id then None else Lookup(list, x)
  {
    if list != [] {
      RetainLookup(list[1..], id, x);
      if list[0].id != id {
        assert Retain(list, id)[1..] == Retain(list[1..], id);
      } else {
        assert Retain(list, id) == Retain(list[1..], id);
      }
    }
  }

  lemma {:induction false} ReplaceLookup(list: seq<NodeCameraConfig>, c: NodeCameraConfig, x: Uuid)
    ensures Lookup(ReplaceFirst(list, c), x)
         == if x == c.id && Lookup(list, x).Some? then Some(c) else Lookup(list, x)
  {
    if list != [] && list[0].id != c.id {
      ReplaceLookup(list[1..], c, x);
      assert ReplaceFirst(list, c)[1..] == ReplaceFirst(list[1..], c);
    }
  }

  lemma {:induction false} AppendLookup(list: seq<NodeCameraConfig>, c: NodeCameraConfig, x: Uuid)
    ensures Lookup(list + [c], x)
         == if Lookup(list, x).Some? then Lookup(list, x) else if c.id == x then Some(c) else None
  {
    if list != [] {
      AppendLookup(list[1..], c, x);
      assert (list + [c])[1..] == list[1..] + [c];
    } else {
      assert (list + [c])[1..] == [];
    }
  }

  /** The in-place list edits act on every camera exactly as the one-camera reading says. */
  lemma ApplyLookup(list: seq<NodeCameraConfig>, m: WsMessage, id: Uuid)
    ensures Lookup(Apply(list, m), id) == CamApply(Lookup(list, id), m, id)
  {
    match m
    case CameraAdded(c) =>
      RetainLookup(list, c.id, id);
      AppendLookup(Retain(list, c.id), c, id);
    case CameraUpdated(c) => ReplaceLookup(list, c, id);
    case CameraRemoved(x) => RetainLookup(list, x, id);
    case _ =>
  }

  lemma {:induction false} LookupNone(list: seq<NodeCameraConfig>, id: Uuid)
    ensures Lookup(list, id).None? <==> forall k | 0 <= k < |list| :: list[k].id != id
  {
    if list != [] {
      LookupNone(list[1..], id);
      assert forall k | 0 <= k < |list[1..]| :: list[1..][k] == list[k + 1];
      assert forall k | 1 <= k < |list| :: list[k] == list[1..][k - 1];
    }
  }

  lemma {:induction false} RetainKeeps(list: seq<NodeCameraConfig>, id: Uuid)
    requires Unique(list)
    ensures Unique(Retain(list, id))
    ensures forall c | c in Retain(list, id) :: c in list && c.id != id
  {
    if list != [] {
      assert forall i, j | 0 <= i < j < |list[1..]| :: list[1..][i].id == list[i + 1].id && list[1..][j].id == list[j + 1].id;
      RetainKeeps(list[1..], id);
      var tail := Retain(list[1..], id);
      forall k | 0 <= k < |tail| ensures tail[k].id != list[0].id {
        assert tail[k] in list[1..];
        var j :| 0 <= j < |list[1..]| && list[1..][j] == tail[k];
        assert list[j + 1] == tail[k];
      }
    }
  }

  lemma {:induction false} ReplaceKeeps(list: seq<NodeCameraConfig>, c: NodeCameraConfig)
    ensures |ReplaceFirst(list, c)| == |list|
    ensures forall k | 0 <= k < |list| :: ReplaceFirst(list, c)[k].id == list[k].id
  {
    if list != [] && list[0].id != c.id {
      ReplaceKeeps(list[1..], c);
    }
  }

  /** No message brings in a second entry for a camera, as long as full lists carry none. */
  lemma ApplyUnique(list: seq<NodeCameraConfig>, m: WsMessage)
    requires Unique(list)
    requires m.ConfigSync? ==> Unique(m.cameras)
    ensures Unique(Apply(list, m))
  {
    match m
    case CameraAdded(c) =>
      RetainKeeps(list, c.id);
      forall k | 0 <= k < |Retain(list, c.id)| ensures Retain(list, c.id)[k].id != c.id {
        assert Retain(list, c.id)[k] in Retain(list, c.id);
      }
    case CameraUpdated(c) => ReplaceKeeps(list, c);
    case CameraRemoved(x) => RetainKeeps(list, x);
    case _ =>
  }

  const LOCAL_SCHEME := "local://"

  /** The path below the recordings directory that a DeleteRecording names, if its URI is local. */
  function LocalPath(m: WsMessage): Option<string> {
    if m.DeleteRecording? && LOCAL_SCHEME <= m.storageUri then Some(m.storageUri[|LOCAL_SCHEME|..]) else None
  }

  /** That is what stands behind the scheme of a local URI, and nothing for any other message or URI. */
  lemma LocalPathIff(m: WsMessage, path: string)
    ensures LocalPath(m) == Some(path) <==> m.DeleteRecording? && m.storageUri == "local://" + path
  {
  }

  /** The `Arc<RwLock<Vec<NodeCameraConfig>>>` shared by the node's tasks, and the recordings on its disk. */
  class NodeCameras {
    var list: seq<NodeCameraConfig>
    var files: set<string>

    constructor (files: set<string>)
      ensures list == [] && this.files == files
    {
      list, this.files := [], files;
    }

    /** `handle_incoming`: edits the list under the write lock and hands the media server the new list after
        every camera message, also after an update that matched nothing; removes a file it is told to, if it
        can; answers a ping. */
    method HandleIncoming(m: WsMessage, removeOk: bool) returns (published: Option<seq<NodeCameraConfig>>, reply: Option<WsMessage>)
      modifies this
      ensures list == Apply(old(list), m)
      ensures published == if m.DeleteRecording? || m.Ping? || m.Pong? then None else Some(list)
      ensures files == if LocalPath(m).Some? && removeOk then old(files) - {LocalPath(m).value} else old(files)
      ensures reply == if m.Ping? then Some(Pong(m.seqNo)) else None
    {
      published, reply := None, None;
      match m {
        case ConfigSync(cameras) =>
          list := cameras;
          published := Some(cameras);
        case CameraAdded(c) =>
          list := Retain(list, c.id);
          list := list + [c];
          published := Some(list);
        case CameraUpdated(c) =>
          list := ReplaceFirst(list, c);
          published := Some(list);
        case CameraRemoved(id) =>
          list := Retain(list, id);
          published := Some(list);
        case DeleteRecording(_, _, uri) =>
          if LOCAL_SCHEME <= uri && removeOk {
            files := files - {uri[|LOCAL_SCHEME|..]};
          }
        case Ping(n) =>
          reply := Some(Pong(n));
        case Pong(_) =>
      }
    }
  }
}
