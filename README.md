# ai-trap: a Dafny model of the session cache and its neighbours

This project models the core of the camera trap's controller: the
**session/detection cache** (`trap/sessions/sessions_cache.py`) and its older
revision (`trap/sessions_cache/sessions_cache.py`). Four components sit around
it: the picam3 camera's command queue, the settings store, the channel/queue
registry, and the capture workflow's session and detection logic. The project
proves what these components promise.

The cache keeps an in-memory index from session id to that session's
detections, each keyed by its track id. Beside the index is a directory tree
with one directory per session, each holding `images/<track>.jpg` and
`metadata/<track>.json`. The model represents:

- the directory tree as a map from session id to the two file maps of that
  session's directory;
- each session's Python dict as the sequence of its records in insertion
  order, at most one per track;
- every message the cache publishes as an entry of an append-only log.

The cache's operations are the methods of the class `Sessions.SessionsCache`.
Each one is proved equal to a pure specification over a `Snapshot` of the
state. The properties are proved as lemmas about those specifications:

- rebuild order;
- best-shot merge;
- sweep retention;
- catalogue and detail query order;
- coherence of the index with the disk.

Files:

| file | module | models |
|---|---|---|
| order.dfy | Order | Python's `<` on `str`, `sorted()` of a set of names, and a selection sort proved equal to it |
| records.dfy | Records | exceptions as `Fault`, `Outcome` and `Result`, the `DetectionMetadata` record, and file names derived from a track id |
| cache_core.dfy | CacheCore | the disk, the index and the events; the pure index updates, the rebuild, the sweep and the queries, with their lemmas |
| sessions_cache.dfy | Sessions | the cache in use: its detection specification and lemmas, and the class `SessionsCache` |
| legacy_sessions_cache.dfy | LegacySessions | the older revision: only what differs from the current one |
| settings_database.dfy | SettingsStore | `Settings` and `SettingsDatabase` |
| channels_service.dfy | Channels | `ChannelsService` |
| camera_picam3.dfy | Picam3 | `CameraPicam3`, its enum tables and its command queue |
| camera_workflow.dfy | Workflow | `CameraWorkflow`'s session, detection and preview logic |

Notes on the source:

- **Sweep with a negative cap.** With `max_sessions < 0`, the sweep loop's
  range runs past the sorted listing. Every session is deleted, then
  `sessions[idx]` raises IndexError. `CacheCore.Sweep` models exactly that.
  The retention property is proved for `cap >= 0`.
- **Existing tracks are re-stored under the current session.** In the current
  revision the merged record goes under the current session, not under the
  detection's session (`trap/sessions/sessions_cache.py:143`). It is an alias
  of the stored record.
- **The older revision applies no best-shot rule.** Its existing-track
  branch assigns each field to itself (`trap/sessions_cache/sessions_cache.py:123-126`).
  The stored record therefore never changes. It writes into the current
  session's directory, which is `<root>/None` when no session is open. This
  is modelled as written. The current revision is the one the application
  uses.
- **The older revision's new-track sends fail.** Its `_new_detection` stores
  the record and then calls `asend` on a `Channel`
  (`trap/sessions_cache/sessions_cache.py:190-191`). `Channel` defines only
  `publish` and the subscribe methods (`trap/channels/channel.py:6-25`), so
  the call raises AttributeError. `detection` has no `try`, so the error
  escapes after both files are written and the record is stored. Nothing is
  sent on either stream channel. The older revision is modelled as written,
  here as for its sweep.
- **The workflow calls names the repository does not define, at the cited
  lines of `trap/workflow/camera_workflow.py`.** The model follows the
  evident meaning of each call:
  - line 30 reads an undefined global `camera`; the model takes the camera as
    a constructor argument;
  - `SessionState` is not imported; the model uses the class defined at
    `trap/sessions/sessions_cache.py:32-35`;
  - `Channel` has `publish`, not `asend`; the model treats `asend` as
    `publish` (the older cache revision makes the same call and is modelled
    as written; see the next note);
  - `SettingsDatabase` has no `get_settings()`; the model reads
    `settings.settings.min_score`;
  - no camera class defines `process_metadata` (line 101); it is left out.

## Model

| member | source | states |
|---|---|---|
| Order.BelowIrreflexive | trap/sessions/sessions_cache.py:239 | no name sorts before itself |
| Order.BelowTransitive | trap/sessions/sessions_cache.py:239 | Python's string order is transitive |
| Order.BelowTotal | trap/sessions/sessions_cache.py:239 | any two distinct names are ordered one way or the other |
| Order.BelowAsymmetric | trap/sessions/sessions_cache.py:239 | two names are never below each other |
| Order.LeastExists | trap/sessions/sessions_cache.py:239 | every non-empty set of names has a least element |
| Order.LeastUnique | trap/sessions/sessions_cache.py:239 | and only one |
| Order.Sorted | trap/sessions/sessions_cache.py:239 | `sorted(names)` holds exactly the listed names, as many entries as names |
| Order.SortedAscending | trap/sessions/sessions_cache.py:239 | `sorted(names)` is strictly ascending, so no name appears twice |
| Order.SortedUnique | trap/sessions/sessions_cache.py:239 | an ascending sequence of exactly the set's elements is its sorted listing |
| Order.LeastOf | trap/sessions/sessions_cache.py:239 | the scan returns the least name of a non-empty set |
| Order.SortNames | trap/sessions/sessions_cache.py:58 | the selection sort computes exactly `sorted(names)` |
| Order.SortedPrefixIsOldest | trap/sessions/sessions_cache.py:244 | in a sorted listing every name before position k is below every name from k on |
| CacheCore.Position | trap/sessions/sessions_cache.py:224 | the first place holding the track, or None when no record has it |
| CacheCore.Lookup | trap/sessions/sessions_cache.py:224 | `sess.get(track)`: a record of the dict with that track, None exactly when there is none |
| CacheCore.Put | trap/sessions/sessions_cache.py:232 | `sess[t] = m`: a new track is appended, a known one is replaced in place; afterwards the track maps to m, other tracks look up as before, and uniqueness of tracks is kept |
| CacheCore.StoreIfIndexed | trap/sessions/sessions_cache.py:213-216 | `_init_detection`: for an indexed session the record is stored and the dict grows by one exactly for a new track; no other session changes; an absent session changes nothing |
| CacheCore.StoreUnder | trap/sessions/sessions_cache.py:229-232 | `_set_detection`: with the session None nothing changes, otherwise as `_init_detection` |
| CacheCore.StorePreservesUniqueness | trap/sessions/sessions_cache.py:229-232 | storing keeps every dict at one record per track |
| CacheCore.GetDetection | trap/sessions/sessions_cache.py:221-227 | `_get_detection`: a record exactly when the session is indexed and holds the track; the record is that track's and comes from that session's dict |
| CacheCore.BestShot | trap/sessions/sessions_cache.py:134-139 | `updated` always from the incoming record; score, width and height from it exactly when its score is strictly higher; identity and creation fields kept |
| CacheCore.BestShotScoreIsMaximum | trap/sessions/sessions_cache.py:134-139 | after two repeated detections the stored score is the largest of the three and does not depend on their order; `updated` follows the later |
| CacheCore.BestShotMonotone | trap/sessions/sessions_cache.py:134-139 | over any run of repeated detections the stored score never decreases and ends at least every seen score |
| CacheCore.ParsedMembership | trap/sessions/sessions_cache.py:276-283 | a record is read back exactly when one of the listed files holds it; unreadable files are skipped |
| CacheCore.InsertAll | trap/sessions/sessions_cache.py:63-65 | replaying records keeps one record per track |
| CacheCore.InsertAllDistinct | trap/sessions/sessions_cache.py:63-65 | files of distinct tracks are replayed into exactly their records, in file order |
| CacheCore.InsertAllKeepsLast | trap/sessions/sessions_cache.py:63-65 | for each track the replayed dict holds the record of the last file for it |
| CacheCore.LastWith | trap/sessions/sessions_cache.py:63-65 | the last position holding a track |
| CacheCore.Replay | trap/sessions/sessions_cache.py:59-65 | replaying keeps the disk and the current session and publishes "session.new" for each name in order |
| CacheCore.Rebuild | trap/sessions/sessions_cache.py:56-65 | `init()` leaves the disk and the current session alone |
| CacheCore.ReplayKeys | trap/sessions/sessions_cache.py:59-61 | replaying indexes exactly the replayed names in addition to those indexed before |
| CacheCore.ReplayEntry | trap/sessions/sessions_cache.py:59-65 | each replayed name holds the replay of its own files; other entries are unchanged |
| CacheCore.RebuildIndexesEveryDirectory | trap/sessions/sessions_cache.py:56-65 | `init()` indexes every directory with its parsable files replayed in file-name order, announces each in ascending id order and leaves other entries as they were |
| CacheCore.RebuildCoherent | trap/sessions/sessions_cache.py:56-65 | the rebuild keeps the index coherent with the disk and leaves every directory indexed |
| CacheCore.Members | trap/sessions/sessions_cache.py:244-252 | the set of names a sequence of deletions removes |
| CacheCore.MembersSnoc | trap/sessions/sessions_cache.py:244-252 | one more deletion adds its one name |
| CacheCore.DistinctCount | trap/sessions/sessions_cache.py:244-252 | distinct victims remove as many directories as there are victims |
| CacheCore.MapMinusCount | trap/sessions/sessions_cache.py:244-252 | removing listed directories lowers the count by their number |
| CacheCore.DeleteEachStops | trap/sessions/sessions_cache.py:244-252 | once a deletion fails the rest of the loop does nothing |
| CacheCore.DeleteEachFacts | trap/sessions/sessions_cache.py:244-252 | deleting distinct indexed sessions succeeds and removes exactly them from disk and index, with one "session.delete" each, in order |
| CacheCore.VictimsArePrefix | trap/sessions/sessions_cache.py:239-244 | the sweep's victims are the first N - cap names of the sorted listing (none when N < cap), all distinct |
| CacheCore.VictimsAreOldest | trap/sessions/sessions_cache.py:239-244 | every victim is below every session that survives |
| CacheCore.SweepRetention | trap/sessions/sessions_cache.py:235-252 | with cap >= 0 and every directory indexed the sweep succeeds, deletes exactly the oldest N - cap sessions from disk and index in ascending order, announces each, leaves the rest untouched, keeps min(N, cap) sessions, and leaves every remaining directory indexed |
| CacheCore.NewestSurvives | trap/sessions/sessions_cache.py:235-252 | with cap >= 1 the greatest id is never swept |
| CacheCore.NotNewest | trap/sessions/sessions_cache.py:244 | no index before the last of an ascending listing holds its greatest name |
| CacheCore.OpenSessionEffects | trap/sessions/sessions_cache.py:93-110 | opening a session with an id above all existing ones makes it current with an empty directory and dict, keeps it through the sweep, leaves at most cap sessions, announces "session.new" before the deletions, and keeps the index coherent with every directory indexed, so further opens and sweeps can follow |
| CacheCore.OpenSessionKeepsIndexed | trap/sessions/sessions_cache.py:93-110 | any open, whatever its id, with cap >= 0 keeps the index coherent and every directory indexed |
| CacheCore.Catalogue | trap/sessions/sessions_cache.py:173-174 | `_list_sessions()`: one (id, count) pair per indexed session, every session present, ids strictly ascending |
| CacheCore.CatalogueEvents | trap/sessions/sessions_cache.py:165-166 | one "session.details" message per catalogue entry, in order |
| CacheCore.DetailEvents | trap/sessions/sessions_cache.py:170-171 | one "detection" message per answered record, in order |
| CacheCore.WithImages | trap/sessions/sessions_cache.py:287-293 | each record paired with the bytes of its image file |
| CacheCore.Reverse | trap/sessions/sessions_cache.py:178-179 | the records in the opposite order |
| Sessions.DetailQueryNewestFirst | trap/sessions/sessions_cache.py:176-183 | the detail query answers every record of the session newest first, each with its image; AttributeError for an unindexed session, AssertionError when an image is missing, and no other failure |
| Sessions.ReverseImagesOnDisk | trap/sessions/sessions_cache.py:178-182 | reversing does not change whether all images exist |
| Sessions.NewDetectionEffects | trap/sessions/sessions_cache.py:112-129 | a new track of an indexed session writes both files, appends the record, publishes "detection" then "session.details" with the new count, and keeps the index coherent |
| Sessions.NewDetectionFailures | trap/sessions/sessions_cache.py:124-129 | a new track without a directory fails with FileNotFoundError and changes nothing; with a directory but no dict both files are written and `_new_detection` raises KeyError |
| Sessions.KnownTrackIndex | trap/sessions/sessions_cache.py:130-146 | a repeated track succeeds without publishing; its dict keeps its size and holds the best-shot merge, so does the current session's dict; no other dict changes |
| Sessions.KnownTrackOutcome | trap/sessions/sessions_cache.py:130-146 | a repeated track succeeds without publishing; the merge replaces the record in its own session's dict and is then re-stored under the current session |
| Sessions.KnownTrackFiles | trap/sessions/sessions_cache.py:130-146 | the metadata file holds the merged record; the image file is replaced exactly for a strictly higher score; other directories are untouched |
| Sessions.DetectionKeepsCoherent | trap/sessions/sessions_cache.py:112-146 | every detection keeps the index coherent with the disk and keeps every directory indexed |
| Sessions.IndexedInvariant | trap/sessions/sessions_cache.py:56-146 | every directory is indexed after `init()` from any state, and stays so through every detection and every open with cap >= 0 |
| Sessions.SessionsCache.constructor | trap/sessions/sessions_cache.py:38-51 | an empty index, no current session, nothing published |
| Sessions.SessionsCache.Init | trap/sessions/sessions_cache.py:56-65 | the state afterwards is exactly the rebuild of the state before |
| Sessions.SessionsCache.ReplaySessions | trap/sessions/sessions_cache.py:59-65 | the loop replays the given directories in order |
| Sessions.SessionsCache.ReplaySession | trap/sessions/sessions_cache.py:60-65 | one outer pass: `_new_session`, then the session's read-back records stored in order |
| Sessions.SessionsCache.InitDetections | trap/sessions/sessions_cache.py:63-65 | the inner loop stores the read-back records one after the other |
| Sessions.SessionsCache.Session | trap/sessions/sessions_cache.py:93-110 | the state and outcome are those of `OpenSession` with `max_sessions` from the settings |
| Sessions.SessionsCache.Detection | trap/sessions/sessions_cache.py:112-146 | the state and outcome are those of `OnDetection` |
| Sessions.SessionsCache.DetectNewTrack | trap/sessions/sessions_cache.py:121-129 | the new-track branch |
| Sessions.SessionsCache.DetectKnownTrack | trap/sessions/sessions_cache.py:130-146 | the known-track branch |
| Sessions.SessionsCache.HandleMessage | trap/sessions/sessions_cache.py:163-171 | "sessions" publishes the catalogue; "session.detections" publishes the detail answer, or fails with its fault publishing nothing; other identifiers do nothing; the index and disk never change |
| Sessions.SessionsCache.PublishCatalogue | trap/sessions/sessions_cache.py:165-166 | appends exactly the catalogue's messages |
| Sessions.SessionsCache.PublishDetails | trap/sessions/sessions_cache.py:170-171 | appends exactly the answer's messages |
| Sessions.SessionsCache.ListSessions | trap/sessions/sessions_cache.py:173-174 | returns the catalogue of the index |
| Sessions.SessionsCache.GetDetectionsForSession | trap/sessions/sessions_cache.py:176-183 | returns the detail query's answer |
| Sessions.SessionsCache.PairWithImages | trap/sessions/sessions_cache.py:180-182 | pairs each record with its image, stopping with AssertionError at the first missing one |
| Sessions.SessionsCache.GetImageData | trap/sessions/sessions_cache.py:287-293 | the image file's bytes, AssertionError when it does not exist |
| Sessions.SessionsCache.NewSession | trap/sessions/sessions_cache.py:188-190 | installs an empty dict, replacing any, and publishes "session.new" |
| Sessions.SessionsCache.DeleteSession | trap/sessions/sessions_cache.py:192-194 | drops the dict and publishes "session.delete"; KeyError with nothing changed for an unindexed session |
| Sessions.SessionsCache.NewDetection | trap/sessions/sessions_cache.py:196-211 | stores the record and publishes it and the new count; KeyError with nothing changed for an unindexed session |
| Sessions.SessionsCache.InitDetection | trap/sessions/sessions_cache.py:213-216 | stores the record when the session is indexed, nothing otherwise |
| Sessions.SessionsCache.SetDetection | trap/sessions/sessions_cache.py:229-232 | stores the record under the given session when indexed, nothing for None or an absent session |
| Sessions.SessionsCache.CleanUpSessions | trap/sessions/sessions_cache.py:235-252 | the state and outcome are those of `Sweep` with `max_sessions` from the settings |
| Sessions.SessionsCache.DeleteListed | trap/sessions/sessions_cache.py:242-252 | deletes the first `count` listed sessions in order, stopping at the first failure; IndexError past the listing |
| Sessions.SessionsCache.DeleteVictim | trap/sessions/sessions_cache.py:246-252 | one pass: the directory goes, then `_delete_session` |
| Sessions.SessionsCache.DeleteSessionFiles | trap/sessions/sessions_cache.py:257-270 | empties one sub-directory file by file; nothing when the session has no directory |
| Sessions.SessionsCache.GetDetectionsMetadataForSession | trap/sessions/sessions_cache.py:272-285 | every parsable metadata file's record in file-name order; FileNotFoundError without a directory |
| Sessions.ParseStep | trap/sessions/sessions_cache.py:276-283 | one more file adds its record when it parses and nothing otherwise |
| Sessions.EmptiedWhenNoFiles | trap/sessions/sessions_cache.py:263-270 | a sub-directory with no files left is empty |
| LegacySessions.CurrentDirName | trap/sessions_cache/sessions_cache.py:122 | the current session's directory, `None` when there is no current session |
| LegacySessions.OpenSessionAsWrittenNeverSweeps | trap/sessions_cache/sessions_cache.py:215-216 | as written, every session open ends in AttributeError after creating the directory, so with cap or more sessions there is one more than the limit |
| LegacySessions.PutExisting | trap/sessions_cache/sessions_cache.py:209-212 | re-storing the record a dict already holds changes nothing |
| LegacySessions.NewTrackEffects | trap/sessions_cache/sessions_cache.py:107-120 | a new track of an indexed session writes both files and appends the record, then fails with AttributeError on `Channel.asend`, with nothing sent and the index still coherent |
| LegacySessions.NewTrackUnindexed | trap/sessions_cache/sessions_cache.py:186-191 | for an unindexed session the files are written and nothing is sent, without any error; FileNotFoundError without a directory |
| LegacySessions.NewTrackAsCurrentRevision | trap/sessions_cache/sessions_cache.py:186-191 | on a new track of an indexed session both revisions agree on disk, index and current session; the current one succeeds and publishes the record and count, this one raises AttributeError and sends nothing |
| LegacySessions.KnownTrackKeepsRecord | trap/sessions_cache/sessions_cache.py:121-128 | a repeated track changes no record: its own dict and every dict but the current session's are unchanged, the current one holds the stored record, nothing is sent |
| LegacySessions.KnownTrackFiles | trap/sessions_cache/sessions_cache.py:121-141 | only the current session's directory is written: the stored record and, when encoding succeeds, the image; FileNotFoundError without it |
| LegacySessions.DetectionKeepsCoherent | trap/sessions_cache/sessions_cache.py:107-141 | every detection, including one that ends in AttributeError, keeps the index coherent with the disk and keeps every directory indexed |
| LegacySessions.DetailQueryOldestFirst | trap/sessions_cache/sessions_cache.py:168-173 | the detail query answers in insertion order, the reverse of the current revision's answer, and fails exactly when that one does |
| LegacySessions.SessionsCache.Detection | trap/sessions_cache/sessions_cache.py:107-141 | the state and outcome are those of this revision's `OnDetection`, including the AttributeError of a new track of an indexed session |
| LegacySessions.SessionsCache.DetectNewTrack | trap/sessions_cache/sessions_cache.py:109-120 | the new-track branch: FileNotFoundError without a directory, otherwise both files written, then AttributeError after the store for an indexed session and success for an unindexed one |
| LegacySessions.SessionsCache.DetectKnownTrack | trap/sessions_cache/sessions_cache.py:121-141 | the known-track branch |
| LegacySessions.SessionsCache.NewDetection | trap/sessions_cache/sessions_cache.py:186-191 | for an indexed session stores the record and then raises AttributeError before any send; an unindexed session changes nothing and succeeds |
| LegacySessions.SessionsCache.HandleMessage | trap/sessions_cache/sessions_cache.py:155-163 | as the current revision, with this revision's detail query |
| LegacySessions.SessionsCache.GetDetectionsForSession | trap/sessions_cache/sessions_cache.py:168-173 | returns this revision's detail query answer |
| SettingsStore.ReadSettings | trap/settings/settings_database.py:85-91 | loading yields a record exactly when the file holds one, and then that record |
| SettingsStore.ReadSettingsAsWritten | trap/settings/settings_database.py:87 | as written, loading always yields None |
| SettingsStore.StartupFrom | trap/settings/settings_database.py:49-52 | a loaded record is kept with the file untouched; otherwise `Settings("", 5, 0.75)` is taken and written |
| SettingsStore.StartupKeepsPersisted | trap/settings/settings_database.py:41-52 | after start-up the file reads back as the settings in force, which are the persisted record when there is one and the defaults otherwise |
| SettingsStore.StartupAsWrittenDiscardsPersisted | trap/settings/settings_database.py:85-91 | as written, any persisted non-default record is replaced by the defaults at start-up |
| SettingsStore.SettingsDatabase.constructor | trap/settings/settings_database.py:41-52 | the settings and the file are the start-up outcome of what loading yields; no callback, nothing published, and the file reads back as the settings |
| SettingsStore.SettingsDatabase.WriteSettings | trap/settings/settings_database.py:79-83 | replaces the file's content with the record and passes it to the callback exactly when one is installed |
| SettingsStore.SettingsDatabase.HandleMessage | trap/settings/settings_database.py:68-77 | "settings.get" republishes and changes nothing; "settings.set" replaces, persists and publishes the decoded record; anything else does nothing; the file always reads back as the settings |
| Channels.ChannelsService.constructor | trap/channels/channels_service.py:7-10 | both registries start empty |
| Channels.ChannelsService.GetChannel | trap/channels/channels_service.py:12-19 | the registered channel, or a fresh one registered under the name; the queues are untouched |
| Channels.ChannelsService.GetQueue | trap/channels/channels_service.py:21-27 | the same for queues |
| Channels.SameNameSameChannel | trap/channels/channels_service.py:12-27 | two lookups of one name give the same channel and the registries only grow |
| Picam3.Modes | trap/cameras/picam3/camera_picam3.py:30-36 | manual to Manual, continuous to Continuous, triggered to Auto |
| Picam3.ModesInverse | trap/cameras/picam3/camera_picam3.py:30-36 | the inverse table undoes `modes` |
| Picam3.ModesBijective | trap/cameras/picam3/camera_picam3.py:30-36 | `modes` is a bijection |
| Picam3.AfStates | trap/cameras/picam3/camera_picam3.py:37-42 | idle, scanning, focussed and failed to Idle, Scanning, Focused and Failed |
| Picam3.AfStatesInverse | trap/cameras/picam3/camera_picam3.py:37-42 | the inverse table undoes `af_states` |
| Picam3.AfStatesBijective | trap/cameras/picam3/camera_picam3.py:37-42 | `af_states` is a bijection |
| Picam3.AfStateOf | trap/cameras/picam3/camera_picam3.py:112 | codes 0 to 3 are Idle, Scanning, Focused and Failed; any other code raises ValueError |
| Picam3.Tag | trap/cameras/picam3/camera_picam3.py:11-13 | each command carries its own tag string |
| Picam3.Action | trap/cameras/picam3/camera_picam3.py:89-100 | a mode command sets AfMode, a position command sets LensPosition, a trigger runs an autofocus cycle |
| Picam3.Applied | trap/cameras/picam3/camera_picam3.py:87-100 | one camera action per command, in command order |
| Picam3.AppliedConcat | trap/cameras/picam3/camera_picam3.py:84-102 | applying two batches in turn equals applying them joined |
| Picam3.CameraPicam3.constructor | trap/cameras/picam3/camera_picam3.py:22-28 | an empty queue and nothing applied |
| Picam3.CameraPicam3.Setup | trap/cameras/picam3/camera_picam3.py:47-50 | starts the camera, then sets continuous autofocus |
| Picam3.CameraPicam3.HandleMessage | trap/cameras/picam3/camera_picam3.py:60-77 | each recognised message appends exactly its command at the tail; an unlisted mode raises KeyError and queues nothing; other identifiers queue nothing |
| Picam3.CameraPicam3.ControlCamera | trap/cameras/picam3/camera_picam3.py:84-102 | the camera receives exactly the queued commands' actions in order, and the queue is then empty |
| Picam3.CameraPicam3.ProcessFrame | trap/cameras/picam3/camera_picam3.py:104-116 | publishes the protocol state inverse to the frame's state, with its lens position; ValueError, publishing nothing, for an undefined state code |
| Picam3.Queued | trap/cameras/picam3/camera_picam3.py:60-77 | a message queues one command, except for an unlisted mode or another identifier, which queue none |
| Picam3.QueuedAfterDrain | trap/cameras/picam3/camera_picam3.py:60-102 | whatever message arrives after a drain is applied by the next drain, after nothing else, and not before; it fails only for an unlisted mode |
| Workflow.Record | trap/workflow/camera_workflow.py:153-171 | the sent record has the open session, the track id, created equal to updated, and the box's width and height |
| Workflow.Passing | trap/workflow/camera_workflow.py:148-152 | the kept results all score at least `min_score` |
| Workflow.PassingMembers | trap/workflow/camera_workflow.py:148-152 | a result is kept exactly when its score is at least `min_score` |
| Workflow.PassingConcat | trap/workflow/camera_workflow.py:148-152 | keeping results preserves their order |
| Workflow.Emissions | trap/workflow/camera_workflow.py:148-175 | one detection send per kept result, in result order |
| Workflow.EmissionsSnoc | trap/workflow/camera_workflow.py:148-175 | one more result adds its send exactly when it is kept |
| Workflow.SaveOpensSessionFirst | trap/workflow/camera_workflow.py:142-175 | a session is opened only when none is, and announced before any detection; every detection sent lies within the open session |
| Workflow.DetectionOffClosesSession | trap/workflow/camera_workflow.py:128-132 | with detection off the open session is announced closed and cleared; with none open nothing goes on "session_channel" |
| Workflow.StreamingWhileDetecting | trap/workflow/camera_workflow.py:105-127 | with detection on, the annotated frame is the first send exactly when the preview is on and nothing else sent is a frame |
| Workflow.StreamingWhileIdle | trap/workflow/camera_workflow.py:128-137 | with detection off, the low-resolution frame is the last send when the preview is on and nothing else sent is a frame |
| Workflow.PreviewGatesStreaming | trap/workflow/camera_workflow.py:105-137 | earlier sends are kept; a frame is queued for streaming exactly when the preview is on; with detection on the annotated frame goes first, with it off the low-resolution frame goes last |
| Workflow.CameraWorkflow.constructor | trap/workflow/camera_workflow.py:25-46 | nothing open, detection and preview off, and the camera set up with the 2028x1520 main and 320x320 low-resolution streams |
| Workflow.CameraWorkflow.SetDetectionState | trap/workflow/camera_workflow.py:48-51 | stores the state and sends it |
| Workflow.CameraWorkflow.GetDetectionState | trap/workflow/camera_workflow.py:53-54 | sends the current state, changing nothing |
| Workflow.CameraWorkflow.SetPreviewState | trap/workflow/camera_workflow.py:56-59 | stores the state and sends it |
| Workflow.CameraWorkflow.GetPreviewState | trap/workflow/camera_workflow.py:61-62 | sends the current state, changing nothing |
| Workflow.CameraWorkflow.SaveDetections | trap/workflow/camera_workflow.py:142-175 | the state afterwards is `Save` of the state before, with `min_score` from the settings |
| Workflow.CameraWorkflow.ProcessImage | trap/workflow/camera_workflow.py:95-140 | the camera's queued commands are applied first and the queue emptied; the workflow's state afterwards is `Cycle` of the state before |

## Left out

- **Filesystem.** `os.mkdir`, `os.listdir`, `open`, `atomic_write` and
  `cv2.imwrite` are updates and reads of the modelled directory map. Disk
  errors other than a missing directory, and the sub-directories as separate
  entries, are not modelled.
- **Serialisation.** JSON, `strong_typing` and protobuf encoding and decoding
  (`to_proto`, `from_proto`, `session_from_proto`, `Settings.from_proto`) are
  left out. A metadata file holds either a record or unreadable content.
  Messages arrive already decoded.
- **Wiring.** Websocket routing, channel subscriptions and the listener tasks
  are left out. Two quirks of the older revision's wiring are therefore not
  modelled:
  - its detection listener hands detections to `session`;
  - its detail query decodes the message object rather than its payload.
- **Concurrency.** The asyncio tasks and the camera lock are left out. All
  components run sequentially, and a drain is atomic with respect to
  enqueues.
- **Sessions.SessionsCache:** aliasing. After a known track is re-stored
  under another session, later in-place updates through one dict also change
  the other. The model stores values and does not capture that.
- **LegacySessions.SessionsCache:** duplicated members. Its `init`,
  `_list_sessions`, `_new_session`, `_delete_session`, `_init_detection`,
  `_get_detection`, `_set_detection`, `_delete_session_files`,
  `_get_detections_metadata_for_session` and `_get_image_data`
  (trap/sessions_cache/sessions_cache.py:51-60, 165-166, 178-184, 193-212,
  237-273) are the same code as the current revision's. They are modelled by
  the `Sessions.SessionsCache` members it works on.
- **LegacySessions.OnKnownTrack:** image encoding. Reshaping the image to the
  stored height x width x 3 and encoding it with cv2 is an input, `encoded`.
- **Workflow.** The YOLO tracker, the frame capture, box scaling (`scale`),
  JPEG encoding (`to_jpeg`), `close_camera` and the main loop are left out.
  The tracker's results, the scaled boxes, the JPEG bytes, the clock readings
  and the formatted session id are inputs.
- **Workflow: `process_metadata`.** The call at
  trap/workflow/camera_workflow.py:101 is left out because no camera class
  defines it.
- **Picam3: wiring and payloads.** `run_tasks` and `websocket_listener_task`
  are wiring. The decoded mode and position are inputs. The frame metadata's
  dictionary lookups are modelled only as the two values read from it.
- **Picam3.CameraPicam3.ProcessFrame:** frame metadata lookups. It does not
  model a KeyError from frame metadata that lacks `AfState` or
  `LensPosition`.
- **SettingsStore: `run_settings_task` and `websocket_listener_task`.** These
  are wiring and are left out.

## Findings

| source | as written | input that shows it | evidently intended | confidence | as-written member | corrected member |
|---|---|---|---|---|---|---|
| trap/settings/settings_database.py:87 | `with os.open(...)` uses the integer file descriptor as a context manager. This raises TypeError, which the handler swallows, so `read_settings` always returns None. | A settings file holding any record other than `Settings("", 5, 0.75)`, then a restart | Load the persisted record, and fall back to the defaults only when there is none | not executed | SettingsStore.StartupAsWrittenDiscardsPersisted | SettingsStore.StartupKeepsPersisted |
| trap/sessions_cache/sessions_cache.py:216 | `_clean_up_sessions` reads `self.settings_manager`, which the class never sets. Every session open ends in AttributeError after creating the directory, and nothing is ever swept. | max_sessions = 5 sessions on disk, then `session(SessionState(True, id))` with a new id | Read `max_sessions` from the settings and sweep, as the current revision does | not executed | LegacySessions.OpenSessionAsWrittenNeverSweeps | CacheCore.SweepRetention |
