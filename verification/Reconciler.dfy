/** The motion-task reconciler (node/src/events/mod.rs). */
module Reconciler {
  import opened Common
  import opened Messages
  import opened Strings

  /** A spawned task: its abort handle, the fingerprint kept for it, and the configuration it captured. */
  datatype CameraTask = CameraTask(handle: nat, sig: string, cam: NodeCameraConfig)

  /** The `running` map, the tasks that really run (spawned and not aborted), and the next handle. */
  datatype Book = Book(running: map<Uuid, CameraTask>, live: set<nat>, nextHandle: nat)

  function OnvifKey(cam: NodeCameraConfig): string {
    match cam.onvifUrl
    case Some(url) => url
    case None => "diff"
  }

  /** `task_sig` */
  function TaskSig(cam: NodeCameraConfig): string {
    cam.rtspUrl + "|" + OnvifKey(cam)
  }

  predicate Wanted(cam: NodeCameraConfig) {
    cam.enabled && cam.motionDetection
  }

  predicate Startable(cam: NodeCameraConfig, diffCapable: bool) {
    cam.onvifUrl.Some? || diffCapable
  }

  // ---- One pass ----

  /** `.map(|c| (c.id, task_sig(c))).collect()`: a repeated id keeps its last signature. */
  function WantedSigs(list: seq<NodeCameraConfig>): map<Uuid, string> {
    if list == [] then map[]
    else
      var c := list[|list| - 1];
      var init := WantedSigs(list[..|list| - 1]);
      if Wanted(c) then init[c.id := TaskSig(c)] else init
  }

  predicate StillValid(running: map<Uuid, CameraTask>, wanted: map<Uuid, string>, id: Uuid)
    requires id in running
  {
    id in wanted && wanted[id] == running[id].sig
  }

  /** `running.retain(...)`: what is no longer valid is aborted and forgotten. */
  function Retained(b: Book, wanted: map<Uuid, string>): Book {
    Book(map id | id in b.running && StillValid(b.running, wanted, id) :: b.running[id],
         b.live - (set id | id in b.running && !StillValid(b.running, wanted, id) :: b.running[id].handle),
         b.nextHandle)
  }

  /** One turn of the start loop. */
  function StartOne(b: Book, cam: NodeCameraConfig, diffCapable: bool): Book {
    if !Wanted(cam) || cam.id in b.running || !Startable(cam, diffCapable) then b
    else Book(b.running[cam.id := CameraTask(b.nextHandle, TaskSig(cam), cam)], b.live + {b.nextHandle}, b.nextHandle + 1)
  }

  function StartAll(b: Book, list: seq<NodeCameraConfig>, diffCapable: bool): Book {
    if list == [] then b
    else StartOne(StartAll(b, list[..|list| - 1], diffCapable), list[|list| - 1], diffCapable)
  }

  function Passed(b: Book, list: seq<NodeCameraConfig>, diffCapable: bool): Book {
    StartAll(Retained(b, WantedSigs(list)), list, diffCapable)
  }

  class Supervisor {
    var running: map<Uuid, CameraTask>
    var live: set<nat>
    var nextHandle: nat
    const diffCapable: bool

    function Value(): Book
      reads this
    {
      Book(running, live, nextHandle)
    }

    constructor (cpuCores: nat, hwAccel: seq<string>)
      ensures running == map[] && live == {} && nextHandle == 0
      ensures diffCapable == (cpuCores >= 2 || hwAccel != [])
    {
      diffCapable := cpuCores >= 2 || hwAccel != [];
      running, live, nextHandle := map[], {}, 0;
    }

    method Retain(wanted: map<Uuid, string>)
      modifies this`running, this`live
      ensures Value() == Retained(old(Value()), wanted)
    {
      var todo := running.Keys;
      ghost var all := running;
      ghost var dead := {};
      while todo != {}
        invariant todo <= all.Keys
        invariant running == map id | id in all && (id in todo || StillValid(all, wanted, id)) :: all[id]
        invariant dead == set id | id in all && id !in todo && !StillValid(all, wanted, id) :: all[id].handle
        invariant live == old(live) - dead
        decreases todo
      {
        var id :| id in todo;
        if id !in wanted || wanted[id] != running[id].sig {
          dead := dead + {running[id].handle};
          live := live - {running[id].handle};
          running := running - {id};
        }
        todo := todo - {id};
      }
    }

    /** One turn of the endless loop in `run`. */
    method Pass(list: seq<NodeCameraConfig>)
      modifies this
      ensures Value() == Passed(old(Value()), list, diffCapable)
    {
      Retain(WantedSigs(list));
      ghost var kept := Value();
      var i := 0;
      while i < |list|
        invariant 0 <= i <= |list|
        invariant Value() == StartAll(kept, list[..i], diffCapable)
      {
        var cam := list[i];
        assert list[..i + 1][..i] == list[..i];
        i := i + 1;
        if !(cam.enabled && cam.motionDetection) || cam.id in running {
          continue;
        }
        if cam.onvifUrl.None? && !diffCapable {
          continue;
        }
        running := running[cam.id := CameraTask(nextHandle, TaskSig(cam), cam)];
        live := live + {nextHandle};
        nextHandle := nextHandle + 1;
      }
      assert list[..i] == list;
    }
  }

  // ---- What a pass achieves ----

  predicate UniqueIds(list: seq<NodeCameraConfig>) {
    forall i, j | 0 <= i < j < |list| :: list[i].id != list[j].id
  }

  /** The tasks that run are exactly those the map can abort, one per camera. */
  ghost predicate NoLeak(b: Book) {
    && (forall h :: h in b.live <==> exists id :: id in b.running && b.running[id].handle == h)
    && (forall a, c | a in b.running && c in b.running && b.running[a].handle == b.running[c].handle :: a == c)
    && (forall id | id in b.running :: b.running[id].handle < b.nextHandle)
  }

  /** Each task is fingerprinted by the configuration it captured, and could be started. */
  ghost predicate Truthful(b: Book, diffCapable: bool) {
    forall id | id in b.running ::
      && b.running[id].cam.id == id
      && b.running[id].sig == TaskSig(b.running[id].cam)
      && Startable(b.running[id].cam, diffCapable)
  }

  lemma RetainedNoLeak(b: Book, wanted: map<Uuid, string>)
    requires NoLeak(b)
    ensures NoLeak(Retained(b, wanted))
  {
    var r := Retained(b, wanted);
    forall h ensures h in r.live <==> exists id :: id in r.running && r.running[id].handle == h {
      if h in r.live {
        var id :| id in b.running && b.running[id].handle == h;
        assert id in r.running;
      }
    }
  }

  lemma StartOneNoLeak(b: Book, cam: NodeCameraConfig, diffCapable: bool)
    requires NoLeak(b)
    ensures NoLeak(StartOne(b, cam, diffCapable))
  {
    var r := StartOne(b, cam, diffCapable);
    if r != b {
      forall h ensures h in r.live <==> exists id :: id in r.running && r.running[id].handle == h {
        if h == b.nextHandle {
          assert r.running[cam.id].handle == h;
        } else if h in b.live {
          var id :| id in b.running && b.running[id].handle == h;
          assert r.running[id].handle == h;
        }
      }
    }
  }

  lemma {:induction false} StartAllNoLeak(b: Book, list: seq<NodeCameraConfig>, diffCapable: bool)
    requires NoLeak(b)
    ensures NoLeak(StartAll(b, list, diffCapable))
    decreases |list|
  {
    if list != [] {
      StartAllNoLeak(b, list[..|list| - 1], diffCapable);
      StartOneNoLeak(StartAll(b, list[..|list| - 1], diffCapable), list[|list| - 1], diffCapable);
    }
  }

  /** No pass leaks a task or doubles one up, whatever the list, repeated ids included. */
  lemma PassNoLeak(b: Book, list: seq<NodeCameraConfig>, diffCapable: bool)
    requires NoLeak(b)
    ensures NoLeak(Passed(b, list, diffCapable))
  {
    RetainedNoLeak(b, WantedSigs(list));
    StartAllNoLeak(Retained(b, WantedSigs(list)), list, diffCapable);
  }

  lemma {:induction false} WantedSigsAt(list: seq<NodeCameraConfig>)
    requires UniqueIds(list)
    ensures forall id | id in WantedSigs(list) :: exists c :: c in list && Wanted(c) && c.id == id
    ensures forall c | c in list && Wanted(c) :: c.id in WantedSigs(list) && WantedSigs(list)[c.id] == TaskSig(c)
    decreases |list|
  {
    if list != [] {
      var init, last := list[..|list| - 1], list[|list| - 1];
      WantedSigsAt(init);
      assert list == init + [last];
      assert forall c :: c in list <==> c in init || c == last;
      assert forall c | c in init :: c.id != last.id;
    }
  }

  lemma {:induction false} StartAllKeys(b: Book, list: seq<NodeCameraConfig>, diffCapable: bool)
    requires UniqueIds(list)
    ensures var r := StartAll(b, list, diffCapable);
            && (forall id | id in b.running :: id in r.running && r.running[id] == b.running[id])
            && (forall id | id in r.running && id !in b.running ::
                  exists c :: c in list && c.id == id && Wanted(c) && Startable(c, diffCapable)
                    && r.running[id].cam == c && r.running[id].sig == TaskSig(c))
            && (forall c | c in list && Wanted(c) && Startable(c, diffCapable) :: c.id in r.running)
    decreases |list|
  {
    if list != [] {
      var init, last := list[..|list| - 1], list[|list| - 1];
      StartAllKeys(b, init, diffCapable);
      assert forall c :: c in list <==> c in init || c == last;
    }
  }

  /** The fingerprint separates the cameras at hand: no "|" in an RTSP URL, no ONVIF URL spelled "diff". */
  predicate Plain(cam: NodeCameraConfig) {
    '|' !in cam.rtspUrl && cam.onvifUrl != Some("diff")
  }

  /** What two equal fingerprints say in general, and that for plain cameras they say all they should. */
  lemma SigFaithful(a: NodeCameraConfig, b: NodeCameraConfig)
    requires '|' !in a.rtspUrl && '|' !in b.rtspUrl
    ensures TaskSig(a) == TaskSig(b) <==> a.rtspUrl == b.rtspUrl && OnvifKey(a) == OnvifKey(b)
    ensures Plain(a) && Plain(b) ==>
              (TaskSig(a) == TaskSig(b) <==> a.rtspUrl == b.rtspUrl && a.onvifUrl == b.onvifUrl)
  {
    if TaskSig(a) == TaskSig(b) {
      SplitUnique('|', a.rtspUrl, OnvifKey(a), b.rtspUrl, OnvifKey(b));
    }
  }

  ghost predicate AllPlain(b: Book, list: seq<NodeCameraConfig>) {
    (forall c | c in list :: Plain(c)) && forall id | id in b.running :: Plain(b.running[id].cam)
  }

  /** Reconciler correctness: after a pass a camera has a task exactly if the list wants it and it can be
      started, and the task watches the URLs the list names. */
  lemma PassCorrect(b: Book, list: seq<NodeCameraConfig>, diffCapable: bool)
    requires UniqueIds(list) && NoLeak(b) && Truthful(b, diffCapable) && AllPlain(b, list)
    ensures var r := Passed(b, list, diffCapable);
            && NoLeak(r) && Truthful(r, diffCapable) && AllPlain(r, list)
            && (forall id :: id in r.running <==>
                  exists c :: c in list && c.id == id && Wanted(c) && Startable(c, diffCapable))
            && (forall c | c in list && c.id in r.running ::
                  && r.running[c.id].sig == TaskSig(c)
                  && r.running[c.id].cam.rtspUrl == c.rtspUrl && r.running[c.id].cam.onvifUrl == c.onvifUrl)
  {
    PassNoLeak(b, list, diffCapable);
    WantedSigsAt(list);
    var kept := Retained(b, WantedSigs(list));
    var r := Passed(b, list, diffCapable);
    StartAllKeys(kept, list, diffCapable);
    forall id | id in r.running
      ensures exists c :: TaskFor(r.running[id], c, list, id, diffCapable)
    {
      if id in kept.running {
        var c :| c in list && Wanted(c) && c.id == id;
        SigFaithful(c, kept.running[id].cam);
        assert TaskFor(r.running[id], c, list, id, diffCapable);
      } else {
        var c :| c in list && c.id == id && Wanted(c) && Startable(c, diffCapable)
                 && r.running[id].cam == c && r.running[id].sig == TaskSig(c);
        assert TaskFor(r.running[id], c, list, id, diffCapable);
      }
    }
    PassKeys(r, list, diffCapable);
  }

  /** Task `t` runs for camera `c` of the list. */
  ghost predicate TaskFor(t: CameraTask, c: NodeCameraConfig, list: seq<NodeCameraConfig>, id: Uuid, diffCapable: bool) {
    && c in list && c.id == id && Wanted(c) && Startable(c, diffCapable)
    && t.cam.id == id && t.sig == TaskSig(c) && t.sig == TaskSig(t.cam) && Plain(t.cam)
    && t.cam.rtspUrl == c.rtspUrl && t.cam.onvifUrl == c.onvifUrl
  }

  lemma PassKeys(r: Book, list: seq<NodeCameraConfig>, diffCapable: bool)
    requires UniqueIds(list) && (forall c | c in list :: Plain(c))
    requires forall id | id in r.running :: exists c :: TaskFor(r.running[id], c, list, id, diffCapable)
    requires forall c | c in list && Wanted(c) && Startable(c, diffCapable) :: c.id in r.running
    ensures Truthful(r, diffCapable) && AllPlain(r, list)
    ensures forall id :: id in r.running <==>
              exists c :: c in list && c.id == id && Wanted(c) && Startable(c, diffCapable)
    ensures forall c | c in list && c.id in r.running ::
              && r.running[c.id].sig == TaskSig(c)
              && r.running[c.id].cam.rtspUrl == c.rtspUrl && r.running[c.id].cam.onvifUrl == c.onvifUrl
  {
    forall id | id in r.running
      ensures r.running[id].cam.id == id && r.running[id].sig == TaskSig(r.running[id].cam)
      ensures Startable(r.running[id].cam, diffCapable) && Plain(r.running[id].cam)
    {
      var c :| TaskFor(r.running[id], c, list, id, diffCapable);
    }
    forall c | c in list && c.id in r.running
      ensures r.running[c.id].sig == TaskSig(c)
      ensures r.running[c.id].cam.rtspUrl == c.rtspUrl && r.running[c.id].cam.onvifUrl == c.onvifUrl
    {
      var x :| TaskFor(r.running[c.id], x, list, c.id, diffCapable);
      assert x == c;
    }
  }

  /** A second pass over the same list spawns nothing and aborts nothing, whatever ran before. */
  lemma PassIdempotent(b: Book, list: seq<NodeCameraConfig>, diffCapable: bool)
    requires UniqueIds(list)
    ensures Passed(Passed(b, list, diffCapable), list, diffCapable) == Passed(b, list, diffCapable)
  {
    var r := Passed(b, list, diffCapable);
    StartAllKeys(Retained(b, WantedSigs(list)), list, diffCapable);
    SigsCurrent(b, list, diffCapable);
    RetainedAll(r, WantedSigs(list));
    StartAllNothing(r, list, diffCapable);
  }

  lemma SigsCurrent(b: Book, list: seq<NodeCameraConfig>, diffCapable: bool)
    requires UniqueIds(list)
    ensures var r := Passed(b, list, diffCapable); forall id | id in r.running :: StillValid(r.running, WantedSigs(list), id)
  {
    WantedSigsAt(list);
    StartAllKeys(Retained(b, WantedSigs(list)), list, diffCapable);
  }

  lemma RetainedAll(r: Book, wanted: map<Uuid, string>)
    requires forall id | id in r.running :: StillValid(r.running, wanted, id)
    ensures Retained(r, wanted) == r
  {
    assert Retained(r, wanted).running == r.running;
    assert Retained(r, wanted).live == r.live;
  }

  lemma {:induction false} StartAllNothing(b: Book, list: seq<NodeCameraConfig>, diffCapable: bool)
    requires forall c | c in list && Wanted(c) && Startable(c, diffCapable) :: c.id in b.running
    ensures StartAll(b, list, diffCapable) == b
    decreases |list|
  {
    if list != [] {
      StartAllNothing(b, list[..|list| - 1], diffCapable);
    }
  }

  // ---- What the fingerprint does not see ----

  /** Changed ONVIF credentials leave the fingerprint alone, so the old task goes on with the old ones. */
  lemma CredentialsUnnoticed(cam: NodeCameraConfig, user: Option<string>, password: Option<string>, task: CameraTask, diffCapable: bool)
    requires Wanted(cam) && task.sig == TaskSig(cam)
    ensures var b, list := Book(map[cam.id := task], {task.handle}, task.handle + 1),
                           [cam.(onvifUsername := user, onvifPassword := password)];
            Passed(b, list, diffCapable).running == b.running
  {
    var b := Book(map[cam.id := task], {task.handle}, task.handle + 1);
    var list := [cam.(onvifUsername := user, onvifPassword := password)];
    assert list[..0] == [];
    assert WantedSigs([]) == map[];
    assert WantedSigs(list) == map[cam.id := TaskSig(cam)];
    var r := Retained(b, WantedSigs(list));
    assert r.running == b.running;
    assert StartAll(r, [], diffCapable) == r;
  }

  /** Without plainness two different cameras can share a fingerprint. */
  lemma SigCollision(cam: NodeCameraConfig)
    ensures var a, b := cam.(rtspUrl := "x|y", onvifUrl := Some("z")), cam.(rtspUrl := "x", onvifUrl := Some("y|z"));
            a != b && TaskSig(a) == TaskSig(b)
    ensures TaskSig(cam.(onvifUrl := None)) == TaskSig(cam.(onvifUrl := Some("diff")))
  {
    assert "x|y" + "|" + "z" == "x" + "|" + "y|z";
    assert "x|y" != "x";
  }

  // ---- Exactly which tasks a pass touches ----

  /** The list asks for a task of camera `id` with this fingerprint. */
  ghost predicate Asks(list: seq<NodeCameraConfig>, id: Uuid, sig: string) {
    exists c :: c in list && c.id == id && c.enabled && c.motionDetection
      && sig == c.rtspUrl + "|" + (match c.onvifUrl case Some(url) => url case None => "diff")
  }

  /** A task goes on, with its handle, exactly if the list still asks for it with its fingerprint; otherwise it is
      aborted. Whatever else runs afterwards is new. */
  lemma PassTouches(b: Book, list: seq<NodeCameraConfig>, diffCapable: bool)
    requires UniqueIds(list) && NoLeak(b)
    ensures var r := Passed(b, list, diffCapable);
            && (forall id | id in b.running ::
                  && (Asks(list, id, b.running[id].sig) <==> id in r.running && r.running[id] == b.running[id])
                  && (Asks(list, id, b.running[id].sig) <==> b.running[id].handle in r.live))
            && (forall id | id in r.running && !(id in b.running && Asks(list, id, b.running[id].sig)) ::
                  r.running[id].handle >= b.nextHandle)
  {
    var kept, r := Retained(b, WantedSigs(list)), Passed(b, list, diffCapable);
    WantedSigsAt(list);
    StartAllKeys(kept, list, diffCapable);
    RetainedNoLeak(b, WantedSigs(list));
    StartAllFresh(kept, list, diffCapable);
    forall id | id in b.running ensures Asks(list, id, b.running[id].sig) <==> id in kept.running {
      AskedIsValid(b, list, id);
    }
  }

  lemma AskedIsValid(b: Book, list: seq<NodeCameraConfig>, id: Uuid)
    requires UniqueIds(list) && id in b.running
    ensures Asks(list, id, b.running[id].sig) <==> StillValid(b.running, WantedSigs(list), id)
  {
    WantedSigsAt(list);
  }

  lemma {:induction false} StartAllFresh(b: Book, list: seq<NodeCameraConfig>, diffCapable: bool)
    ensures var r := StartAll(b, list, diffCapable);
            && b.nextHandle <= r.nextHandle
            && (forall id | id in r.running && id !in b.running :: r.running[id].handle >= b.nextHandle)
            && (forall h | h < b.nextHandle :: h in r.live <==> h in b.live)
    decreases |list|
  {
    if list != [] {
      StartAllFresh(b, list[..|list| - 1], diffCapable);
    }
  }

  /** Which cameras have a task after a pass, spelt out: enabled, with motion detection, and with an ONVIF URL or on
      a node that can compare frames. */
  lemma RunningIff(b: Book, list: seq<NodeCameraConfig>, diffCapable: bool, id: Uuid)
    requires UniqueIds(list) && NoLeak(b) && Truthful(b, diffCapable) && AllPlain(b, list)
    ensures id in Passed(b, list, diffCapable).running <==>
            exists c :: c in list && c.id == id && c.enabled && c.motionDetection && (c.onvifUrl != None || diffCapable)
  {
    PassCorrect(b, list, diffCapable);
    assert forall c | c in list :: Wanted(c) && Startable(c, diffCapable) <==>
      c.enabled && c.motionDetection && (c.onvifUrl != None || diffCapable);
  }
}
