/** The coordinator-to-node messages of common/src/ws.rs, and the camera row they are made from. */
module Messages {
  import opened Common

  /** The camera descriptor a node receives (common/src/ws.rs). */
  datatype NodeCameraConfig = NodeCameraConfig(
    id: Uuid, name: string, rtspUrl: string, streamPath: string, enabled: bool,
    onvifUrl: Option<string>, onvifUsername: Option<string>, onvifPassword: Option<string>,
    motionDetection: bool)

  /** A row of the `cameras` table. */
  datatype Camera = Camera(
    id: Uuid, nodeId: Uuid, name: string, rtspUrl: string, streamPath: Option<string>, enabled: bool,
    onvifUrl: Option<string>, onvifUsername: Option<string>, onvifPassword: Option<string>,
    motionDetection: bool)

  /** The body of PATCH /cameras/{id}: an absent field keeps the stored value. */
  datatype UpdateCamera = UpdateCamera(
    name: Option<string>, rtspUrl: Option<string>, streamPath: Option<string>, enabled: Option<bool>,
    onvifUrl: Option<string>, onvifUsername: Option<string>, onvifPassword: Option<string>,
    motionDetection: Option<bool>)

  datatype WsMessage =
    | ConfigSync(cameras: seq<NodeCameraConfig>)
    | CameraAdded(added: NodeCameraConfig)
    | CameraUpdated(updated: NodeCameraConfig)
    | CameraRemoved(cameraId: Uuid)
    | DeleteRecording(recordingId: Uuid, startedAt: int, storageUri: string)
    | Ping(seqNo: nat)
    | Pong(seqNo: nat)

  function CoalesceOption<T>(patch: Option<T>, stored: Option<T>): Option<T> {
    if patch.Some? then patch else stored
  }

  /** The UPDATE ... SET x = COALESCE($n, x) of `update_camera`. */
  function Patched(row: Camera, patch: UpdateCamera): Camera {
    row.(name := Coalesce(patch.name, row.name),
         rtspUrl := Coalesce(patch.rtspUrl, row.rtspUrl),
         streamPath := CoalesceOption(patch.streamPath, row.streamPath),
         enabled := Coalesce(patch.enabled, row.enabled),
         onvifUrl := CoalesceOption(patch.onvifUrl, row.onvifUrl),
         onvifUsername := CoalesceOption(patch.onvifUsername, row.onvifUsername),
         onvifPassword := CoalesceOption(patch.onvifPassword, row.onvifPassword),
         motionDetection := Coalesce(patch.motionDetection, row.motionDetection))
  }

  /** `node_camera_config`: a missing stream path becomes the empty string. */
  function ConfigOf(row: Camera): NodeCameraConfig {
    NodeCameraConfig(row.id, row.name, row.rtspUrl, Coalesce(row.streamPath, ""), row.enabled,
                     row.onvifUrl, row.onvifUsername, row.onvifPassword, row.motionDetection)
  }
}
