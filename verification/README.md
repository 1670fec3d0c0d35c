# Verification of the camera-management protocols

The repository is a coordinator with a PostgreSQL database, camera nodes, and one WebSocket per node. This
project models its protocols and decision loops in Dafny and proves what they keep. `dafny verify dfyconfig.toml`
checks everything.

Each protocol is a state machine: a `State`, a `Step` datatype, `Enabled` and `Do` for all the code can do, and
theorems about whole runs (`Runs`, `Exec`). Objects the source updates in place are classes whose methods are
proved against value-level functions; loops that update variables are methods with invariants. The theorems are
about those same functions.

| file | what it models |
|---|---|
| `Messages`, `CameraList`, `NodeRegistry` | the messages to a node, the node's camera list, the coordinator's registry |
| `ReplayLog`, `Replication`, `ReplicationSteps`, `ReplicationRuns`, `ReplicationDrains`, `ReplicationFields` | camera-config replication: fuzzy snapshot plus overlapping log, sessions that may overlap; what a list becomes from any state; what each commit writes, field by field |
| `Utf8`, `SegmentQueue`, `FlushProtocol`, `FlushLosses`, `SegmentDelivery` | the durable segment queue as the bytes of its file, alone, with recorder and flush interleaved and writes that stop after any byte, and up to the recordings table for all nodes together |
| `SegmentNames`, `Recordings`, `Migrator` | how a segment is named, indexed and migrated |
| `SegmentLifecycle`, `SegmentRows` | the segments of all nodes over one bucket and one table: bytes and rows in every run |
| `Allocation`, `CapacityRace` | camera creation served alone, and with check and INSERT interleaved |
| `RetentionPolicies`, `RetentionEnforcer` | policy transactions, and the hourly pass |
| `AuthSessions` | login, refresh (SELECT and UPDATE apart) and logout |
| `Reconciler`, `EventRate`, `OnvifLoop`, `FrameDiffer`, `Watchdog` | the node's decision loops |
| `S3Address`, `PercentCoding` | S3 addresses on the upload and download side, percent-encoding (RFC 3986) |

## Assumptions

- Replication converges under four assumptions, the constructors of `Replication.Assumption`: a push overtakes only
  pushes to its node with which it commutes, an approval's rows with the pending pushes replayed are current when it
  pushes them, a new session's snapshot query succeeds, an exit block runs while no other session of the node is
  registered. `EachAssumptionNeeded` gives, for each of them, a run that breaks it alone and ends idle and wrong. The
  second follows when approvals push at once, the last when sessions do not overlap (`ConvergenceAtOnce`).
  `ListConvergesIff` needs none of them: it says, from any state, when the list ends right.
- A node opens a new connection only once its old one is gone at its own end; the coordinator may notice later.
- SQL statements are atomic, and a transaction commits or rolls back as a whole.
- Version-5 UUIDs and token hashes are injective where a statement says `Injective`; new tokens and ids are fresh.
- JSON is a codec that decodes what it encoded and writes one line of UTF-8 (`SegmentQueue.Codec.Faithful`). For the
  interleaved protocol also: no part of an object decodes, nor does the beginning of one with another behind it
  (`Codec.OneObject`). `BracesCodec` shows that both can be met.
- All nodes upload to one bucket, as `docs/deployment.md:258` has it, and report to one recordings table. How many
  nodes there are, and what their cameras are called, is not restricted; `RowsSeparate` and `ObjectsSeparate` say
  exactly which segments must not meet.
- A frame the sink accepted may still be lost when the link dies; "sent" means accepted. A notice waiting in the node's
  memory is not sent.
- A request takes at most the client's 8 s, and the monotonic clock does not go back.
- f32 rounding is monotone and within half a unit in the last place (`FrameDiffer.RoundsLikeF32`).
- Node and coordinator are configured with the same endpoint and style.

## Where the code falls short of a property one would expect

Each of these is proved for a concrete or general situation. A name ending in `Iff` says exactly when the property
holds; the other positive statements give a condition under which it does.

- Neither the key of a row nor the name of an object says which node a segment is from. Two nodes with a camera of the
  same stream path, and files that start in the same second, collide (`TwoNodesCollide`): the second file gets no row
  (`MissingRowRun`), its notice moves the first one's row (`MovedRowRun`), its upload overwrites the first one's bytes
  (`OverwriteRun`, `OverwrittenRowRun`). `MigrationSafetyIff` and `OneRowPerSegmentIff` give the exact conditions,
  `FlatSeparateIff` says what they come to for recordings one directory deep, `OwnRowIff` for the queue.
- The exit block removes the registry entry by node id. A stale one takes a live session's entry, and a commit
  made then is dropped for good (`StaleExitRun`, `UnregisteredMissesCommit`); live sessions stay registered exactly in
  runs without overlap (`RegisteredIffNoOverlap`).
- A failed snapshot query sends an empty list (`FailedQueryRun`), an approval may push rows that are stale
  (`StaleApprovalRun`), a push may overtake an earlier one with which it does not commute (`OvertakingPushRun`; two
  pushes commute exactly as `CommuteIff` says). `FetchIff`, `ApprovalPushIff` and `PushIff` give each step's exact
  condition, `ListConvergesIff` with `FetchDestiny`, `ApprovalDestiny` and `PushDestiny` that of the list itself.
- An entry tried between the read and the clear of a flush is lost (`WindowPushIsLost`). So is one written behind a line
  torn midway (`TornLineLosesNext`, exact condition `PushSurvivesIff`). A write that ends inside a character makes the
  whole file unreadable, earlier and later entries alike, for good (`SplitCharacterLosesAll`, `PoisonedForever`, exactly
  when: `PoisonsIff`). Nothing is lost exactly otherwise (`LosslessIff`).
- The watcher takes the creation of a file for its completion as well as its closing (`node/src/recorder/mod.rs:65-72`), so
  a file can be reported twice, first too small, and the row keeps the first size (`EarlySizeStays`). Order and
  repetition of reports do not matter exactly if reports of one key make the same row (`ArrivalOrderIff`).
- Recorder and migrator name a file alike exactly if it is one directory deep and without backslashes (`UrisAgreeIff`);
  deeper files never find their row and may share one (`DeepKeysCollide`).
- A migration notice that arrives before its segment is indexed is lost (`EarlyNoticeIsLost`, `NoticeOrderIff`), and
  until a notice arrives the row names a local file that is gone (`LocalUriDangles`). The notice waits in the node's
  memory meanwhile, and a restart or a failed send loses it (`CrashLosesNotice`). The row can be mended exactly as long
  as the notice is in that channel or on a link (`MendableIff`); after that it never is (`LostNoticeDangles`).
- An expired row leaves its bytes behind exactly if they are in S3, or on the disk of a node that is not there, or on a
  disk under another name than the row's (`ExpiryLeavesIff`); no object is ever deleted (`ObjectsStay`).
- A repeated SegmentComplete brings an expired row back (`ExpiredRowReturns`, exactly when: `RowThereIff`).
- The enforcer tells the node to delete the file also when its own DELETE failed (`DeleteAndNotify`).
- With K requests in flight a node can reach exactly 63 + K cameras (`BoundedOvershoot`, `OvershootReached`), although
  `coordinator/src/routes/cameras.rs:99` calls the check hard.
- A Renew the camera rejects counts as done, so the subscription lapses before the next (`RejectedRenewalLapses`), and a
  subscription that has ended is never made anew while the camera answers, if only with errors (`LapsedForever`),
  against the comment at `node/src/events/onvif.rs:108`. Four failed ones in a row are never too many (`NeverLapses`),
  five may be (`FiveFailuresMayLapse`).
- A motion task's fingerprint leaves out the ONVIF credentials (`CredentialsUnnoticed`), and two cameras with "|" in a
  URL can share one (`SigCollision`); `SigFaithful` says what equal fingerprints mean otherwise.
- Upload and download URL differ for an endpoint that is not http(s), and for a key with a leading slash
  (`UrlsAgreeIff`).

## Model

| member | source | states |
|---|---|---|
| CameraList.ApplyLookup | node/src/ws_client.rs:200-229 | every in-place edit of the list acts on each camera exactly as its one-camera reading says, no other camera changes |
| CameraList.ApplyUnique | node/src/ws_client.rs:206-229 | no message brings in a second entry for a camera |
| CameraList.NodeCameras.HandleIncoming | node/src/ws_client.rs:184-250 | the new list for every message, the list handed to the media server exactly after camera messages, the file removed for a local URI, the answer to a ping |
| CameraList.LocalPathIff | node/src/ws_client.rs:230-241 | a DeleteRecording names a file exactly by what stands behind local:// |
| NodeRegistry.AppState.Register | coordinator/src/routes/node_ws.rs:99-104 | a fresh channel, registered under the node's id, displacing the old entry |
| NodeRegistry.AppState.Unregister | coordinator/src/routes/node_ws.rs:153-156 | removal by node id, whoever is registered |
| NodeRegistry.AppState.PushToNode | coordinator/src/state.rs:30-37 | appended to the registered channel, dropped without an entry, all other channels untouched |
| ReplayLog.ReplayIdempotent | node/src/ws_client.rs:200-229 | replaying any log onto the state it produced changes nothing |
| ReplayLog.CommuteIff | node/src/ws_client.rs:206-229 | two deltas commute in every state exactly if about different cameras, equal, a removal with an update or another removal, or an addition with an update to the same configuration |
| ReplayLog.MoveToFront | node/src/ws_client.rs:206-229 | a delta may overtake any number of deltas it commutes with |
| ReplicationSteps.CommitEffect | coordinator/src/routes/cameras.rs:165-187 | a commit changes a camera's row by exactly the message it queues for the row's node |
| ReplicationFields.CreateEffect | coordinator/src/routes/cameras.rs:165-187 | a create stores its row, announces every field of it to its node, and changes nothing else |
| ReplicationFields.UpdateEffect | coordinator/src/routes/cameras.rs:228-259 | a PATCH stores and announces in each field the value given, else the one stored before; camera, node and other rows stay |
| ReplicationFields.DeleteEffect | coordinator/src/routes/cameras.rs:277-288 | a delete removes exactly its row and tells the node it was on |
| ReplicationFields.ListAfter | node/src/ws_client.rs:200-229 | a node's list changes only by a delivery to it or its restart |
| ReplicationFields.WireAfter | coordinator/src/routes/node_ws.rs:106-149 | frames under way grow by what is sent while the connection is up, shrink by deliveries from the front, and gain nothing afterwards |
| ReplicationSteps.SafeStep | coordinator/src/routes/node_ws.rs:97-156 | every step the code can take, overlaps, failures and an exit on either side's error included, keeps registry, sessions and connections consistent |
| ReplicationSteps.ConvergingStep | coordinator/src/routes/node_ws.rs:101-151 | under the assumptions every step keeps: snapshot start, then log, then pending deltas replay to the database row |
| ReplicationSteps.ApprovalPushIff | coordinator/src/routes/nodes.rs:246-249 | an approval's push keeps a camera converging exactly if replaying what is pending over its rows gives the database row |
| ReplicationSteps.FetchIff | coordinator/src/routes/node_ws.rs:106-109 | so does a snapshot exactly if replaying channel and pending over it does |
| ReplicationSteps.PushIff | coordinator/src/routes/cameras.rs:184-187 | so does a push, whatever it overtakes, exactly if the row is what log, push and rest end in and what the rest leaves alone |
| ReplicationRuns.RunInv | coordinator/src/routes/node_ws.rs:97-156 | the convergence invariant holds after every good run |
| ReplicationRuns.Convergence | coordinator/src/routes/node_ws.rs:101-109 | once a session is idle its node's list is the database's rows for the node, as an id-to-config map, none twice, for every interleaving |
| ReplicationFields.FieldAfter | coordinator/src/routes/cameras.rs:228-254 | after any run a stored row has in a field the value of the last commit that gave one |
| ReplicationFields.IdleEntryLastGiven | coordinator/src/routes/cameras.rs:228-259 | convergence down to the fields: at an idle session of a good run the node's entry has in each field the value of the last commit that gave one |
| ReplicationRuns.NoOverlapNoStaleExit | coordinator/src/routes/node_ws.rs:153-156 | in every run whose sessions never overlap the exit assumption holds by itself |
| ReplicationRuns.ConvergenceWithoutOverlap | coordinator/src/routes/node_ws.rs:101-156 | convergence for every run without overlapping sessions, under the other three assumptions |
| ReplicationRuns.Drain | coordinator/src/routes/node_ws.rs:145-149 | from every state of a good run a connected session the coordinator has not left can be drained without commits, and then has converged |
| ReplicationDrains.ListConvergesIff | coordinator/src/routes/node_ws.rs:101-151 | from any state, good or not: however the messages under way are brought home, the list ends as destined, and agrees with the database exactly if the destinies do |
| ReplicationDrains.QuietRunDestiny | coordinator/src/routes/node_ws.rs:106-149 | moving messages on, in any interleaving, changes no camera's destiny |
| ReplicationDrains.ApprovalDestiny | coordinator/src/routes/nodes.rs:246-249 | after an approval's push the destiny is its rows with what is pending |
| ReplicationDrains.PushDestiny | coordinator/src/routes/cameras.rs:184-187 | after any push the destiny is log, push, then the rest |
| ReplicationDrains.FetchDestiny | coordinator/src/routes/node_ws.rs:106-109 | after a fetch the destiny is its answer with channel and pending |
| ReplicationDrains.AtOnceIsFresh | coordinator/src/routes/nodes.rs:246-249 | in every run whose approvals read and push at once the approval assumption holds by itself |
| ReplicationDrains.ConvergenceAtOnce | coordinator/src/routes/node_ws.rs:101-156 | convergence for runs without overlapping sessions whose approvals push at once, given commit order and successful queries |
| ReplicationRuns.FailedQueryRun | coordinator/src/routes/node_ws.rs:78-80 | a run in which only the query assumption fails, idle and not converged |
| ReplicationRuns.OvertakingPushRun | coordinator/src/routes/cameras.rs:184-187 | a run in which only commit order fails, idle and not converged |
| ReplicationRuns.StaleApprovalRun | coordinator/src/routes/nodes.rs:246-249 | a run in which only the approval assumption fails, idle and not converged |
| ReplicationRuns.StaleExitRun | coordinator/src/routes/node_ws.rs:153-156 | a run of overlapping sessions in which the stale exit loses a commit for the live session |
| ReplicationRuns.EachAssumptionNeeded | coordinator/src/routes/node_ws.rs:97-156 | for each of the four assumptions a run breaking it alone refutes convergence |
| ReplicationRuns.RegistryAlwaysSafe | coordinator/src/routes/node_ws.rs:101-156 | in every run an entry belongs to a session of that node that has not run its exit block |
| ReplicationRuns.RegisteredUntilDisplaced | coordinator/src/routes/node_ws.rs:101-156 | a session stays registered exactly as long as no session of its node opens or exits |
| ReplicationRuns.DisplacedForever | coordinator/src/routes/node_ws.rs:101-104 | a displaced session is never registered again |
| ReplicationRuns.RegisteredIffNoOverlap | coordinator/src/routes/node_ws.rs:101-156 | live sessions are registered from insert to exit exactly in the runs whose sessions never overlap |
| ReplicationRuns.UnregisteredMissesCommit | coordinator/src/state.rs:30-37 | the next commit reaches an idle session exactly if it is registered; without an entry it stays idle and wrong |
| Utf8.ValidSplit | node/src/recorder/queue.rs:30-30 | text put behind text is UTF-8 (section 4 of RFC 3629) exactly if both are |
| Utf8.ScalarIsCharacter | node/src/recorder/queue.rs:30-30 | every scalar value's encoding (section 3 of RFC 3629) is read as one character, whatever follows |
| Utf8.ValidIsText | node/src/recorder/queue.rs:30-30 | whatever is well-formed is the encoding of some scalar values; `TextIsValid` is the converse |
| SegmentQueue.CrLf | node/src/recorder/queue.rs:31-32 | a line feed ends a line, with a carriage return before it or without |
| SegmentQueue.ReadAfter | node/src/recorder/queue.rs:16-35 | what a reader finds after any push, whole, refused or stopped after any byte: nothing if the file or the part is not UTF-8, else the lines up to the last line feed and the prolonged last line |
| SegmentQueue.ValidAfterIff | node/src/recorder/queue.rs:24-30 | the file stays readable exactly if it was and the write does not end inside a character; it never comes back |
| SegmentQueue.PushSurvivesIff | node/src/recorder/queue.rs:16-35 | a push is read back behind the earlier lines exactly if the file is UTF-8 and the entry decodes together with what a torn line left; on a terminated file the second always holds |
| SegmentQueue.TornLineLosesNext | node/src/recorder/queue.rs:16-35 | a torn line and a whole push behind it of which a reader finds neither |
| SegmentQueue.SplitCharacterLosesAll | node/src/recorder/queue.rs:30-30 | a write that ends inside a character, after which a reader finds none of the earlier entries and no later one |
| SegmentQueue.Queue.Push | node/src/recorder/queue.rs:16-26 | onto any file, written out, unopened or stopped after any byte: the new file, and one more entry in order on a terminated UTF-8 one |
| SegmentQueue.Queue.ReadAll | node/src/recorder/queue.rs:29-35 | the decodable lines in order, or nothing from a file that is not UTF-8 |
| SegmentQueue.Queue.Clear | node/src/recorder/queue.rs:38-40 | nothing left if the removal works, everything in place otherwise |
| SegmentQueue.FlushQueue | node/src/ws_client.rs:156-182 | the prefix the link takes is sent with consecutive numbers; the file is removed exactly if all was sent and the removal works, otherwise untouched |
| FlushProtocol.Conservation | node/src/ws_client.rs:156-182 | in every interleaving, writes stopped after any byte included: the attempts are, in order, those completed flushes read each followed by its window, then those on the file; reading the bytes gives exactly the readable ones, and those of each flush reached the sink in one piece |
| FlushProtocol.RunInv | node/src/recorder/queue.rs:16-35 | the books agree with the bytes in every run: finished lines, the unfinished one, and nothing once the file is not UTF-8 |
| FlushProtocol.PoisonedForever | node/src/ws_client.rs:163-166 | once the file is not UTF-8 and no flush is under way, nothing is sent, cleared or read in any continuation |
| FlushProtocol.PoisonsIff | node/src/recorder/queue.rs:24-24 | it becomes so exactly if a write ends inside a character |
| FlushLosses.LosslessIff | node/src/ws_client.rs:163-181 | nothing is lost exactly if the steps have no push between a read and the clear of the same flush, none that stops short of its last byte and none behind an unfinished line |
| FlushLosses.EntryAccounted | node/src/ws_client.rs:156-182 | each entry can be read from the file, went out in a completed batch, fell in a window, or was cut short, torn or made unreadable |
| FlushLosses.SentWasPushed | node/src/ws_client.rs:169-178 | nothing is sent that was not pushed |
| FlushLosses.FlushingAfter | node/src/ws_client.rs:156-182 | a flush is under way exactly from a read that found something until its clear, a failure or a restart |
| FlushLosses.WindowPushIsLost | node/src/recorder/queue.rs:38-40 | for every codec and two entries, a run that loses the one pushed in the window |
| SegmentDelivery.IndexAllEffect | coordinator/src/routes/node_ws.rs:293-310 | from any table and frames of any nodes: old rows stay, every other row is made from the first frame for its key, and there is no other |
| SegmentDelivery.ArrivalOrderIff | coordinator/src/routes/node_ws.rs:293-310 | the table is the same for every order and repetition of the frames exactly if frames that share a missing key make the same row |
| SegmentDelivery.EarlySizeStays | node/src/recorder/mod.rs:65-104 | a file reported at creation and again at closing keeps the first size |
| SegmentDelivery.Delivery | node/src/ws_client.rs:156-182 | end to end for all nodes: if exactly the accepted frames arrive, each segment tried has a row of its node unless another node contests the key, or can be read from the file, fell in a window, or was spoilt; every new row comes from an attempt |
| SegmentDelivery.OwnRowIff | coordinator/src/routes/node_ws.rs:277-310 | a sent segment has a row of its node in every order of arrival exactly if no other node has or sends the key |
| SegmentDelivery.FileToRow | node/src/recorder/mod.rs:83-136 | from file to table: the row first indexed for a file names its directory and name, the first camera with that stream path, the sending node, and a minute from the key's start |
| SegmentRows.ReportIsIndexed | node/src/recorder/mod.rs:119-138 | what the lifecycle takes a report to carry is what the recorder pushes and the index makes of it |
| SegmentNames.HandleSegment | node/src/recorder/mod.rs:75-142 | pushes exactly if the stem parses and a camera has the stream path, the file's key, URI, first matching camera and a 60 s span; error on an unparsable stem or failed write; flush signalled exactly on success |
| SegmentNames.UrisAgreeIff | node/src/storage/mod.rs:86-92 | recorder and migrator compute the same local URI exactly for files one directory deep without backslashes |
| SegmentNames.KeysAgreeIff | node/src/storage/mod.rs:90-100 | a migration notice names the recorder's row exactly for such files |
| SegmentNames.JoinSnoc | node/src/storage/mod.rs:87-88 | the relative path is the directories and the name with single slashes between |
| SegmentNames.FlatKeysInjective | node/src/recorder/mod.rs:119-125 | two such files share a key only with directory and name in common, whatever their nodes |
| SegmentNames.FlatNamesIff | node/src/storage/mod.rs:86-104 | two such files share row and object exactly if directory and stem are equal; the node has no part in it |
| SegmentNames.DeepKeysCollide | node/src/recorder/mod.rs:119-125 | two deeper files that do |
| SegmentNames.MigratedFetchesBackIff | node/src/storage/mod.rs:102-108 | a migrated file's reported URI downloads from where it was uploaded, exactly for a web endpoint and no leading backslash |
| Recordings.Table.IndexSegment | coordinator/src/routes/node_ws.rs:277-323 | inserts exactly if the key is new, field by field the frame's row on the session's node with the policy that applies, and leaves every other row alone |
| Recordings.IndexedFields | coordinator/src/routes/node_ws.rs:278-310 | a new key's row has the frame's camera, URI, end, duration and size, the session's node, and the camera's own policy, else the default, else none for an unknown camera |
| Recordings.MigratedFields | coordinator/src/routes/node_ws.rs:225-235 | a notice changes the URI of its row and nothing else |
| Recordings.Table.UpdateSegmentUri | coordinator/src/routes/node_ws.rs:225-248 | moves the URI of exactly the named row, and nothing when it is missing |
| Recordings.IndexIdempotent | coordinator/src/routes/node_ws.rs:293-310 | a repeated SegmentComplete changes nothing, a migration in between included |
| Recordings.EarlyNoticeIsLost | coordinator/src/routes/node_ws.rs:225-248 | the two messages do not commute on a missing row |
| Recordings.NoticeOrderIff | coordinator/src/routes/node_ws.rs:225-310 | report and notice commute exactly if the row is there, the keys differ or the URI is the same |
| SegmentLifecycle.NoticeBeforeRemoval | node/src/storage/mod.rs:106-132 | in every reachable state a segment that vanished from its disk was announced in its node's memory first, and every s3:// URI in a row names a stored object of that URI |
| SegmentLifecycle.MigrationSafetyIff | node/src/storage/mod.rs:86-132 | over all nodes: each closed segment's own bytes are on its disk or in S3 unless culled or deleted, in all runs, exactly if no two segments share an object |
| SegmentLifecycle.OverwriteRun | node/src/storage/mod.rs:102-132 | for any two segments that do, a run that leaves the first nowhere |
| SegmentLifecycle.DiskAfter | node/src/storage/mod.rs:131-132 | a segment leaves its disk exactly by its migration, the watchdog or a DeleteRecording with its path |
| SegmentLifecycle.ObjectsAfter | node/src/storage/mod.rs:106-121 | objects change only by a stored PUT, which puts the file of that node there |
| SegmentLifecycle.OutboxAfter | node/src/ws_client.rs:126-132 | a notice waits in its node's channel from its sending until a link takes or drops it or the node restarts |
| SegmentLifecycle.WireAfter | coordinator/src/routes/node_ws.rs:203-213 | a link holds exactly what was reported, transmitted or requested and not lost |
| SegmentRows.OneRowPerSegmentIff | coordinator/src/routes/node_ws.rs:225-310 | over all nodes, any order and repetition of messages: each row is its segment's, reported by its node, its URI local or S3 with its own bytes there, and no key is taken by another, in all runs exactly if no two segments get in each other's way |
| SegmentRows.FlatSeparateIff | node/src/recorder/mod.rs:119-125 | for files one directory deep both conditions come to: no two nodes close the same directory and stem |
| SegmentRows.TwoNodesCollide | node/src/storage/mod.rs:86-104 | two nodes that do collide in row, notice and object, and neither property holds |
| SegmentRows.MissingRowRun | coordinator/src/routes/node_ws.rs:293-310 | a run in which a segment's report changes nothing, its key being another's |
| SegmentRows.MovedRowRun | coordinator/src/routes/node_ws.rs:225-235 | a run in which a notice moves another segment's row to an object with other bytes |
| SegmentRows.OverwrittenRowRun | node/src/storage/mod.rs:102-132 | a run in which a correct row ends up pointing to another segment's bytes |
| SegmentRows.RowThereIff | coordinator/src/routes/node_ws.rs:293-310 | after any run a row is there exactly if it was indexed, or there to begin with, and has not expired since |
| SegmentRows.MovesOnceToS3 | coordinator/src/routes/node_ws.rs:225-235 | while a row exists its URI is S3 exactly if it was or a notice for it arrived, so never back to local |
| SegmentRows.LocalUriDangles | node/src/storage/mod.rs:125-132 | after the upload, notice and removal leave the row on a local file that is gone |
| SegmentRows.MendableIff | node/src/storage/mod.rs:125-132 | in every reachable state the row of a vanished segment can come to its S3 URI exactly if its notice is in a node's channel or on a link |
| SegmentRows.LostNoticeDangles | node/src/ws_client.rs:126-132 | once the notice is lost the row names a vanished local file in every continuation |
| SegmentRows.CrashLosesNotice | node/src/storage/mod.rs:125-132 | a run in which a restart right after the removal loses it |
| SegmentRows.ExpiryLeavesIff | coordinator/src/retention.rs:64-88 | which bytes an expired row leaves behind: exactly those in S3, of an absent node, or on a disk under another name |
| SegmentRows.ObjectsStay | node/src/ws_client.rs:230-241 | a stored segment's object is there in every continuation, as long as no other segment shares it |
| SegmentRows.ExpiredRowReturns | coordinator/src/routes/node_ws.rs:293-310 | a late duplicate brings an expired row back |
| Migrator.Store.MigrateSegment | node/src/storage/mod.rs:80-132 | upload, notice, removal in this order, the object then holding this file; a failed read or upload stops before notice and removal |
| Migrator.Store.MigratePass | node/src/storage/mod.rs:49-78 | the pass is the fold of `migrate_segment` over the old enough candidates, a failure not stopping the rest |
| Migrator.UploadedIff | node/src/storage/mod.rs:57-71 | exactly the listed files are uploaded that are there, started at least the cutoff ago by their name, and whose PUT succeeds |
| Migrator.PassRemoves | node/src/storage/mod.rs:49-78 | the disk loses exactly what was uploaded and could be removed |
| Migrator.PassStores | node/src/storage/mod.rs:49-78 | exactly the last upload to each URI has its bytes in the bucket, objects nothing went to are untouched |
| Migrator.PassNotifies | node/src/storage/mod.rs:125-129 | one notice for each uploaded file, in listing order |
| Migrator.NoticeExact | node/src/storage/mod.rs:90-104 | a notice carries the UUID of the rebuilt local URI, the start in the name, and the bucket and path as the new URI |
| Migrator.PassIsSafe | node/src/storage/mod.rs:106-132 | whatever leaves the disk was uploaded and announced, and its own bytes are stored exactly if no later file of the pass went to the same object |
| Allocation.LeastLoadedExists | coordinator/src/routes/cameras.rs:77-88 | the auto-assign query has an answer unless every approved node is full |
| Allocation.CameraService.ResolveNode | coordinator/src/routes/cameras.rs:56-97 | which error exactly when, else the given node or a least-loaded approved one under the cap |
| Allocation.CameraService.CreateCamera | coordinator/src/routes/cameras.rs:153-190 | each error exactly when, no change on error, else one camera on an approved node that had room, and that node told; an auto-assigned create is a step of the serial runs |
| Allocation.AssignKeepsBalance | coordinator/src/routes/cameras.rs:75-95 | a spread of at most one stays at most one, for every tie-break and wherever other cameras are |
| Allocation.AssignTakesPlace | coordinator/src/routes/cameras.rs:75-88 | an assignment takes exactly one of the approved nodes' free places |
| Allocation.FullIff | coordinator/src/routes/cameras.rs:77-94 | a create is refused exactly when no free place is left |
| Allocation.SerialAllocation | coordinator/src/routes/cameras.rs:75-114 | over any serial run from any table: a create is accepted exactly while fewer than the free places were, and balance is kept |
| Allocation.BalancedAllocation | coordinator/src/routes/cameras.rs:75-114 | from empty: balanced, and exactly 64 creates per approved node are accepted |
| CapacityRace.BoundedOvershoot | coordinator/src/routes/cameras.rs:100-182 | with at most K requests in flight, deletes and failed inserts interleaved, never more than 63 + K cameras |
| CapacityRace.OvershootReached | coordinator/src/routes/cameras.rs:162-182 | 63 + K is reached from 63 |
| CapacityRace.StepExact | coordinator/src/routes/cameras.rs:100-182 | each step's effect on a node's count, and a check passes exactly under 64 |
| RetentionPolicies.Store.CreatePolicy | coordinator/src/routes/retention.rs:40-70 | all or nothing, and the stored row on success |
| RetentionPolicies.Store.UpdatePolicy | coordinator/src/routes/retention.rs:101-141 | all or nothing, and the returned row is the stored one |
| RetentionPolicies.Store.DeletePolicy | coordinator/src/routes/retention.rs:148-164 | refused when unknown or referenced, else gone |
| RetentionPolicies.TransactionDefaults | coordinator/src/routes/retention.rs:51-141 | who is default afterwards: a failed create or unknown id leaves it, a success makes it the only one, unset or deleted leaves none |
| RetentionPolicies.CreateExact | coordinator/src/routes/retention.rs:40-70 | which error exactly when, else the row asked for, the others kept but for a default flag handed over |
| RetentionPolicies.UpdateExact | coordinator/src/routes/retention.rs:101-141 | which error exactly when, else each field given or as before, the others kept but for a default flag handed over |
| RetentionPolicies.DeleteExact | coordinator/src/routes/retention.rs:148-164 | which error exactly when, else that policy goes and nothing else changes |
| RetentionPolicies.ReferExact | migrations/0008_recordings.sql:10-10 | a row may name a policy exactly if it exists, and does until it goes or names another |
| RetentionPolicies.PolicyInvariants | migrations/0007_retention_policies.sql:1-11 | over all transaction sequences: at most one default, positive days, unique names, no dangling reference |
| RetentionPolicies.FailureReasons | coordinator/src/routes/retention.rs:45-138 | a create or update of a valid table fails exactly for role, days, unknown id or taken name, never on the single-default index |
| RetentionEnforcer.NothingYoungExpires | coordinator/src/retention.rs:47-57 | with valid policies no row younger than a day is selected |
| RetentionEnforcer.OwnPolicyIff | coordinator/src/retention.rs:49-55 | a row with a policy of its own expires exactly by that policy's days, whatever the default |
| RetentionEnforcer.DefaultPolicyIff | coordinator/src/retention.rs:49-55 | every other row exactly by the one default policy's days, and never without one |
| RetentionEnforcer.DefaultLeavesOwn | coordinator/src/retention.rs:49-55 | changing the default leaves rows with a policy of their own alone |
| RetentionEnforcer.QueryExpired | coordinator/src/retention.rs:45-62 | the oldest min(500, n) expired rows, oldest first |
| RetentionEnforcer.Enforcer.DeleteAndNotify | coordinator/src/retention.rs:64-88 | exactly the selected rows whose DELETE succeeds go; every selected row's owner is pushed one message |
| RetentionEnforcer.Enforcer.Tick | coordinator/src/retention.rs:22-26 | one pass: the selected rows go and the channels grow accordingly, a failed query does nothing |
| RetentionEnforcer.PushedAllAt | coordinator/src/retention.rs:76-86 | a registered node's channel grows by exactly the messages for its rows, in order |
| RetentionEnforcer.OfferedOnce | coordinator/src/retention.rs:69-87 | a row's owner is offered exactly one message with its id and URI, nobody else any |
| RetentionEnforcer.PassEffect | coordinator/src/retention.rs:31-62 | a pass removes min(500, n) expired rows, none younger before an older one, and no other row |
| RetentionEnforcer.RetentionDrain | coordinator/src/retention.rs:19-62 | after p passes n - 500 p are left, none exactly when 500 p reaches n, unexpired rows untouched |
| AuthSessions.SessionStore.Login | coordinator/src/routes/auth.rs:53-92 | a token exactly for a known user and right password, with one new session |
| AuthSessions.SessionStore.Refresh | coordinator/src/routes/auth.rs:98-138 | refused exactly without a live matching session, else that one session takes the new token and term |
| AuthSessions.SessionStore.Logout | coordinator/src/routes/auth.rs:144-154 | exactly the user's sessions go |
| AuthSessions.RunInv | coordinator/src/routes/auth.rs:53-154 | in every interleaving a session's row carries a token made for that session |
| AuthSessions.RetiredForever | coordinator/src/routes/auth.rs:104-127 | a token no session carries any more never validates again |
| AuthSessions.ReplacedNeverValidates | coordinator/src/routes/auth.rs:117-127 | the token given to an answered refresh never validates again, whatever ran in between or runs later |
| AuthSessions.OneTokenPerSession | coordinator/src/routes/auth.rs:104-115 | a session validates at most one token, a token at most one session |
| AuthSessions.RaceOneWinner | coordinator/src/routes/auth.rs:104-127 | of the tokens returned to racing refreshes of one token at most one is valid, ever |
| AuthSessions.LaterUpdateWins | coordinator/src/routes/auth.rs:121-127 | the earlier UPDATE's token is dead at once, the later one's valid exactly if the session still exists |
| AuthSessions.LogoutKillsInFlight | coordinator/src/routes/auth.rs:148-153 | a token returned after a logout by a refresh already under way never validates |
| AuthSessions.ValidatesIff | coordinator/src/routes/auth.rs:104-115 | a token validates exactly if a session that has not expired carries it |
| AuthSessions.SevenDays | coordinator/src/routes/auth.rs:76-121 | left alone, a token of a login or refresh validates for exactly seven days |
| AuthSessions.SessionsAfter | coordinator/src/routes/auth.rs:78-153 | each request changes the sessions it should, to what it should, and no others |
| AuthSessions.FlightsAfter | coordinator/src/routes/auth.rs:104-127 | a refresh is under way from its SELECT until its UPDATE or until it gives up, and answered from then on |
| Reconciler.Supervisor.Retain | node/src/events/mod.rs:55-63 | exactly the tasks no longer wanted with their signature are aborted and forgotten |
| Reconciler.Supervisor.Pass | node/src/events/mod.rs:45-86 | one turn of the loop, on the map and the running tasks |
| Reconciler.PassNoLeak | node/src/events/mod.rs:55-86 | running tasks and the map's handles stay in one-to-one correspondence, for every list |
| Reconciler.PassCorrect | node/src/events/mod.rs:48-86 | a camera has a task exactly if enabled, motion-detecting and startable, and the task watches the URLs the list names |
| Reconciler.RunningIff | node/src/events/mod.rs:42-83 | after a pass a camera has a task exactly if the list has it enabled, with motion detection, and with an ONVIF URL or on a node that can compare frames |
| Reconciler.PassTouches | node/src/events/mod.rs:48-86 | a task goes on with its handle exactly if the list still asks for it with its fingerprint, else it is aborted; whatever else runs is new |
| Reconciler.PassIdempotent | node/src/events/mod.rs:45-86 | a second pass over the same list spawns and aborts nothing, whatever ran before |
| Reconciler.SigFaithful | node/src/events/mod.rs:23-29 | equal signatures mean equal URLs, exactly, for plain cameras |
| Reconciler.CredentialsUnnoticed | node/src/events/mod.rs:23-29 | changed credentials leave the old task running |
| Reconciler.SigCollision | node/src/events/mod.rs:23-29 | without plainness different cameras can share a signature |
| OnvifLoop.PollLoop | node/src/events/onvif.rs:57-114 | the loop over clock, last motion, last renewal and expiry refines the turn-by-turn state |
| OnvifLoop.TurnExact | node/src/events/onvif.rs:60-113 | one turn in plain figures: when a renewal is due, when the reply comes, whether it raises an event, what the next state is |
| OnvifLoop.EventAtIff | node/src/events/onvif.rs:95-105 | turn i raises an event exactly if its reply shows motion at least 10 s after the last event, at the reply, and nothing else raises one |
| OnvifLoop.MotionReported | node/src/events/onvif.rs:57-105 | over a whole call every reply with motion has an event of the call at it or less than 10 s before |
| OnvifLoop.MotionReportedInTask | node/src/events/onvif.rs:17-105 | and so over a whole task, through errors and new subscriptions |
| OnvifLoop.CalledExact | node/src/events/onvif.rs:17-55 | a call that cannot subscribe only costs its time; any other is its turns and the pull that fails |
| OnvifLoop.NeverLapses | node/src/events/onvif.rs:57-113 | every renewal and pull reaches the camera before expiry, through up to four consecutive failed renewals |
| OnvifLoop.FiveFailuresMayLapse | node/src/events/onvif.rs:62-78 | a schedule within all bounds where five failures are too many |
| OnvifLoop.RejectedRenewalLapses | node/src/events/onvif.rs:68-77 | after a rejected renewal the subscription has ended when the next is due |
| OnvifLoop.LapsedForever | node/src/events/onvif.rs:88-112 | once it has ended and no renewal is accepted, no later pull or renewal is in time, over any number of answered turns |
| OnvifLoop.EventRateBound | node/src/events/onvif.rs:17-22 | across any number of errors and new subscriptions a window W holds at most floor(W / 10 s) + 1 events |
| FrameDiffer.SadSymmetric | node/src/events/diff.rs:71-76 | the distance is symmetric |
| FrameDiffer.SadTriangle | node/src/events/diff.rs:71-76 | the distance obeys the triangle inequality |
| FrameDiffer.SadZeroIff | node/src/events/diff.rs:71-76 | the distance is zero exactly for equal frames |
| FrameDiffer.SadOne | node/src/events/diff.rs:71-76 | two bytes are apart by the larger less the smaller |
| FrameDiffer.SadConcat | node/src/events/diff.rs:71-76 | the distance adds up over parts of equal length |
| FrameDiffer.SadReplace | node/src/events/diff.rs:71-76 | replacing a byte moves the sum by the difference at its place |
| FrameDiffer.SadMaxIff | node/src/events/diff.rs:71-78 | the greatest distance is reached exactly by black against white everywhere |
| FrameDiffer.FrameSadBound | node/src/events/diff.rs:71-78 | at most 3672000, so exact in f32 |
| FrameDiffer.ThresholdIff | node/src/events/diff.rs:52-78 | the rounded score comparison is exactly "sum at least 73440" |
| FrameDiffer.Differ.Turn | node/src/events/diff.rs:48-67 | an event exactly if not the first frame, at least 73440 from the previous one, and the cooldown has passed; buffers swapped |
| FrameDiffer.Differ.Loop | node/src/events/diff.rs:42-68 | the two-buffer loop refines the buffer-free stream reading |
| FrameDiffer.EventAtIff | node/src/events/diff.rs:48-63 | frame i raises an event exactly under that condition on frames i - 1 and i, at its own time, and nothing else does |
| FrameDiffer.ChangeReported | node/src/events/diff.rs:48-63 | over a whole call every frame that differs enough has an event of the call at its arrival or less than 10 s before |
| FrameDiffer.ChangeReportedInTask | node/src/events/diff.rs:16-63 | and so over a whole task, through failing streams |
| FrameDiffer.CalledExact | node/src/events/diff.rs:29-49 | a call is FFmpeg's start, the frames, and the read that fails |
| FrameDiffer.EventRateBound | node/src/events/diff.rs:16-23 | the same event bound across restarts of the stream |
| EventRate.WindowCount | node/src/events/onvif.rs:97-98 | times ten seconds apart put at most floor(W / 10 s) + 1 in a window |
| EventRate.TaskRate | node/src/events/onvif.rs:17-22 | any loop that keeps the cooldown, called again and again after the retry sleep, meets the bound |
| EventRate.ObserveExact | node/src/events/onvif.rs:97-98 | one look raises an event exactly with motion and 10 s since the last, at that time |
| EventRate.TaskSnoc | node/src/events/onvif.rs:17-22 | each call keeps its events and is followed by 15 s of sleep |
| Watchdog.SortCorrect | node/src/recorder/watchdog.rs:51-51 | the sort orders by modification time and loses no file |
| Watchdog.SortStable | node/src/recorder/watchdog.rs:51-51 | files of one modification time stay in the order of the walk |
| Watchdog.MeetsLow | node/src/recorder/watchdog.rs:22-35 | usage is at or below 75 percent exactly when a quarter of the disk, rounded up to bytes, is free |
| Watchdog.PassesHigh | node/src/recorder/watchdog.rs:14-35 | culling starts exactly if less than 15 percent of the disk is free |
| Watchdog.CulledIsMinimal | node/src/recorder/watchdog.rs:37-69 | only deletable files, never past the target, down to it or every file tried, oldest first and no deletable survivor older than a deleted file |
| Watchdog.Disk.CullUntil | node/src/recorder/watchdog.rs:37-69 | the loop deletes that cull of the sorted listing, and the bytes freed are the sizes deleted |
| Watchdog.Disk.Tick | node/src/recorder/watchdog.rs:12-19 | nothing at or below 85 percent, else a minimal cull ending at or below 75 percent or with every file tried |
| S3Address.UploadGoesWhereSigned | node/src/storage/sigv4.rs:39-109 | in both styles the URL of a PUT is endpoint scheme, signed host, signed canonical path, for every endpoint and key |
| S3Address.PathStyleForm | node/src/storage/sigv4.rs:18-42 | the documented path-style form spelt out; slashes behind the endpoint and before the key do not matter |
| S3Address.VirtualHostForm | node/src/storage/sigv4.rs:18-54 | the documented virtual-hosted form spelt out, likewise |
| S3Address.ParsedIsPrinted | coordinator/src/storage.rs:73-77 | whatever storage URI parses is the printed one of its parts, with a slash-free bucket |
| S3Address.UriRoundTripIff | node/src/storage/mod.rs:103-104 | printing and parsing recovers bucket and key exactly for slash-free buckets |
| S3Address.SchemesAgreeIff | coordinator/src/storage.rs:117-117 | both sides use the same scheme exactly for http and https endpoints with a host |
| S3Address.HostsAgree | coordinator/src/storage.rs:83-94 | a download is signed for the host the upload was signed for |
| S3Address.PathsAgreeIff | coordinator/src/storage.rs:83-94 | the signed paths agree exactly for keys without a leading slash |
| S3Address.UrlsAgreeIff | coordinator/src/storage.rs:117-121 | the presigned URL before the question mark is the PUT URL exactly for a web endpoint and a key without a leading slash |
| S3Address.PresignForm | coordinator/src/storage.rs:74-121 | the download host, path and address spelt out for both schemes and styles |
| PercentCoding.PercentEncode | coordinator/src/storage.rs:54-64 | the loop computes the byte-by-byte encoding |
| PercentCoding.DecodeEncode | coordinator/src/storage.rs:54-64 | decoding per sections 2.1 and 2.3 of RFC 3986 undoes it on every byte string |
| PercentCoding.EncodeOne | coordinator/src/storage.rs:56-62 | each byte stands for itself if unreserved, else is a percent sign and two digits in upper case |
| PercentCoding.EncodeConcat | coordinator/src/storage.rs:54-64 | byte strings are encoded piece by piece |
| PercentCoding.EncodeInjective | coordinator/src/storage.rs:54-64 | different inputs stay different |
| PercentCoding.EncodedAlphabet | coordinator/src/storage.rs:51-53 | only unreserved characters and percent signs come out |
| PercentCoding.QueryDetermines | coordinator/src/storage.rs:97-104 | the signed query string tells credential, date and expiry apart, whatever bytes the credential holds |
| PercentCoding.QueryForm | coordinator/src/storage.rs:97-104 | the signed query string spelt out |

## Left out

- HTTP, WebSocket and TLS transport, JSON syntax, file-system watching, FFmpeg and MediaMTX processes: they appear as steps and inputs that succeed, fail or take time.
- SHA-256, HMAC, Argon2, JWT and the signature computation itself: uninterpreted or absent; the header map of a signed PUT is not built.
- The `select!` loops of both sides as single methods: every branch that matters is a step of a state machine or a method of its own; heartbeats, motion events and dashboard broadcasts carry no invariant over runs.
- Node deletion: its cascade removes cameras without a message, so it is no step of the replication runs.
- FlushProtocol.Conservation: takes each push, read and clear as atomic, except that a push may stop midway for good; a read that meets a push still being written is not modelled.
- SegmentDelivery.Delivery: policies do not change while frames are indexed, rows do not expire or migrate meanwhile, and frames lost on a dying link are outside it, because the code has no acknowledgement.
- SegmentLifecycle.MigrationSafetyIff: a file name is closed once on a node; a recorder that writes the same name again is not modelled. A DeleteRecording is taken to resolve paths without `..`.
- Migrator.Store.MigrateSegment: the pruning of empty directories is not modelled.
- ReplicationRuns.StaleExitRun: that a stale exit does harm is shown by a run; the exact condition is that of the registry (`RegisteredIffNoOverlap`), not of the list, which a stale exit without a later commit leaves right.
- RetentionPolicies.PolicyInvariants: transactions are taken one after another; two that race on the default flag are serialised by the database's unique index.
- RetentionEnforcer.RetentionDrain: a day is 86400 s and clock and policies stay fixed; scheduling of the ticks is left out.
- RetentionEnforcer.IsDefaultDays: which default row a LIMIT 1 picks does not matter, since there is at most one.
- AuthSessions.RaceOneWinner: access tokens stay valid until they expire whatever happens to the session and are not modelled.
- OnvifLoop.NeverLapses: sleeps last exactly as long as asked; extra scheduling delay would eat into the margin. XML scanning is an input.
- FrameDiffer.Differ.Loop: a clock reading between the comparison and the sending of an event is taken as one moment.
- Watchdog.Disk.Tick: percentages are over the reals, not f64; nobody else writes meanwhile; empty directories are not pruned.
- S3Address.UrlsAgreeIff: URL normalisation by the HTTP client and percent-encoding of paths are not modelled; the source does neither itself.
- Camera listing, users, roles, events, playback and WHEP proxying, hardware detection, environment parsing, capacity view: thin or single-branch.
