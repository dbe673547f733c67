# Tempo offline player and focus timer, modelled in Dafny

Tempo is a personal music library. Its web client caches track bodies
locally so that a playlist stays playable offline. Each body is checked
against the SHA-256 digest in the server's playlist manifest, and a repair
pass re-validates the cache. The client also keeps a play queue with
shuffle and repeat and remembers where playback stood across reloads. The
FastAPI server serves the catalog, the playlists, their manifests and a
focus timer whose sessions can be paused, resumed, completed or canceled.

This project models that core and proves properties of it:

- `content_store.dfy` (`ContentStore`): the three IndexedDB object stores of
  `apps/web/src/lib/db.ts`, as a class whose maps the operations update.
- `crypto.dfy` (`Crypto`): the lower-case hex rendering of a digest in
  `apps/web/src/lib/crypto.ts`. SHA-256 itself is a function parameter.
- `manifests.dfy` (`Manifests`): the manifest shared by server and client.
- `cache_spec.dfy` (`CacheSpec`): the download walk and the repair check of
  `App.tsx` as pure functions. The network is a parameter.
- `transport.dfy` (`Transport`): next, previous, ended, the repeat toggle
  and the persisted session of `App.tsx`, as pure functions.
- `app.dfy` (`App`): the controller `App` of `apps/web/src/App.tsx` as a
  class. React state becomes fields and the handlers become methods. Each
  method is proved against the pure specifications above.
- `focus.dfy` (`Focus`): the focus-session handlers of
  `apps/api/app/api/focus.py`, over a table of sessions.
- `focus_view.dfy` (`FocusView`): the timer helpers of
  `apps/web/src/components/FocusView.tsx`.
- `catalog.dfy` (`Catalog`): the catalog, playlist and sync routes of
  `apps/api/app/api/routes.py` over the tables of `apps/api/app/models`.
- `config.dfy` (`Config`): `cors_list` and `model_post_init` of
  `apps/api/app/core/config.py`.
- `numerals.dfy` (`Numerals`) and `wrappers.dfy` (`Wrappers`): digit
  strings, `padStart`, and the Option and Result types.

### Behaviour of the code worth knowing

- **A manifest that cannot be fetched ends the repair pass.**
  `repairDownloads` (App.tsx:260-267) has no `try` around the manifest
  fetch. One failure ends the pass, the playlists after it are not
  repaired, and "Repair complete." is not shown. A failed track download
  does not end the pass, because `downloadPlaylist` catches it.
  `CacheSpec.Repair` is the pass as a fold over the playlists,
  `App.RepairRecordOf` is the stored playlists and statuses it leaves, and
  `App.Client.RepairDownloads` is proved to compute both;
  `CacheSpec.RepairEndsAtFirstFailedFetch` states where it stops.
- **The first failed track aborts the whole download.** The first failure
  throws out of the loop over the manifest (App.tsx:235-242 to 255-257), so
  the tracks after it are not looked at in that download.
  `CacheSpec.RunStopsAtFirstFailure` and `CacheSpec.RunAfterFailure` state
  this.
- **A corrupted body with the right recorded digest is never repaired.**
  Repair re-hashes the cached body (App.tsx:276). The download that repair
  triggers only compares the recorded digest field (App.tsx:233). So a body
  that was corrupted in place while its recorded digest stayed right is
  detected on every pass and never replaced.
  `CacheSpec.CorruptBodyWithRightDigestSurvivesRepair` proves this, and
  `CacheSpec.RepairConvergesOnHonestCache` proves convergence for the faults
  the download does fix: missing entries and stale digests.

## Model

| member | source | states |
|---|---|---|
| ContentStore.Store.constructor | apps/web/src/lib/db.ts:30-41 | the three stores start empty |
| ContentStore.Store.GetTrack | apps/web/src/lib/db.ts:60-69 | a record is returned exactly when one is stored under the id, and it is that record |
| ContentStore.Store.SaveTrack | apps/web/src/lib/db.ts:71-73 | insert-or-replace under the record's own id; the other stores are untouched |
| ContentStore.Store.DeleteTrack | apps/web/src/lib/db.ts:75-77 | the id is gone and every other record is kept unchanged |
| ContentStore.Store.IsTrackDownloaded | apps/web/src/lib/db.ts:79-82 | true exactly when a record is stored under the id |
| ContentStore.Store.SavePlaylist | apps/web/src/lib/db.ts:84-86 | insert-or-replace under the playlist's id |
| ContentStore.Store.GetPlaylist | apps/web/src/lib/db.ts:88-97 | the stored playlist under the id, if any |
| ContentStore.Store.SavePlaybackState | apps/web/src/lib/db.ts:99-103 | the playback store holds exactly one record, under "main", the one just written |
| ContentStore.Store.GetPlaybackState | apps/web/src/lib/db.ts:105-114 | the record under "main", absent exactly when nothing was saved |
| Crypto.ByteHexDigits | apps/web/src/lib/crypto.ts:5 | each byte renders as its high and low nibble digits, two characters |
| Crypto.ToHexLayout | apps/web/src/lib/crypto.ts:4-6 | the hex string has 2n characters and characters 2i, 2i+1 encode byte i |
| Crypto.ToHexIsLowerHex | apps/web/src/lib/crypto.ts:4-6 | every character is a lower-case hex digit |
| Crypto.HexRoundTrip | apps/web/src/lib/crypto.ts:4-6 | decoding the hex string gives the bytes back |
| Crypto.ToHexInjective | apps/web/src/lib/crypto.ts:4-6 | two digests render equal exactly when they are equal |
| Crypto.Sha256Blob | apps/web/src/lib/crypto.ts:1-8 | the hex decodes to the platform digest of the blob |
| Crypto.Sha256BlobShape | apps/web/src/lib/crypto.ts:1-8 | the result is 64 lower-case hex characters |
| Crypto.SameHexIffSameDigest | apps/web/src/lib/crypto.ts:1-8 | comparing hex strings, as the cache does, is comparing digests |
| Numerals.ToRadixValue | apps/web/src/components/FocusView.tsx:25 | `n.toString(radix)` reads back as n |
| Numerals.PaddedValue | apps/web/src/lib/crypto.ts:5 | `padStart(w, "0")` keeps the value and the digits |
| Numerals.DecimalStringValue | apps/web/src/lib/api.ts:134-136 | an integer in a template reads back as itself, with a sign exactly when negative |
| Manifests.TrackIds | apps/web/src/App.tsx:225 | the ids of the manifest tracks, position by position |
| CacheSpec.Snapshot | apps/web/src/App.tsx:222-227 | the saved playlist has the manifest's id, name, timestamp and track ids in order |
| CacheSpec.StepForMeaning | apps/web/src/App.tsx:232-250 | a fresh entry is skipped with no fetch; otherwise the body is saved exactly when the response is ok and its digest is the manifest's; a non-ok response fails with "Failed to download", a wrong digest with "Hash mismatch" |
| CacheSpec.Run | apps/web/src/App.tsx:229-253 | `done` never passes the manifest length, and equals it when no error occurred |
| CacheSpec.RunAfterFailure | apps/web/src/App.tsx:235-242 | after a failure the remaining tracks are never looked at |
| CacheSpec.RunStopsAtFirstFailure | apps/web/src/App.tsx:230-257 | a failed walk stops at track `done`, with that track's own error and the cache as it was before that track |
| CacheSpec.AdvanceFailsClosed | apps/web/src/App.tsx:232-249 | one step never removes an entry and writes only verified bodies |
| CacheSpec.KeptOrVerifiedTransitive | apps/web/src/App.tsx:231-253 | keep-or-verified composes over consecutive steps |
| CacheSpec.RunFailsClosed | apps/web/src/App.tsx:231-257 | the walk, failed or not, leaves every entry as it was or written with a body matching its digest, and removes none |
| CacheSpec.RunLeavesHandledFresh | apps/web/src/App.tsx:231-253 | every track handled so far has an entry with the manifest's digest |
| CacheSpec.AdvanceFreshensItsTrack | apps/web/src/App.tsx:232-249 | a step that does not fail leaves its track fresh |
| CacheSpec.AdvanceKeepsFresh | apps/web/src/App.tsx:232-249 | a step keeps every other fresh track fresh |
| CacheSpec.DownloadSuccessCachesAll | apps/web/src/App.tsx:218-254 | after a successful download every manifest track is cached under the manifest digest |
| CacheSpec.RunOverFreshCacheIsIdle | apps/web/src/App.tsx:232-233 | over a fully fresh cache the walk fetches nothing and changes nothing |
| CacheSpec.SecondDownloadFetchesNothing | apps/web/src/App.tsx:218-258 | downloading an unchanged playlist again after success fetches nothing |
| CacheSpec.FirstFault | apps/web/src/App.tsx:269-282 | the first track that is missing or whose re-hashed body differs; all before it are intact; none means all are intact |
| CacheSpec.DownloadFailsClosed | apps/web/src/App.tsx:218-258 | a whole download, whether the manifest fetch fails or not, removes no entry and writes only verified bodies |
| CacheSpec.Repair | apps/web/src/App.tsx:260-282 | the pass downloads no more playlists than are listed |
| CacheSpec.RepairCompletesIffAllFetched | apps/web/src/App.tsx:262-266 | the pass runs to its end exactly when every manifest could be fetched |
| CacheSpec.RepairEndsAtFirstFailedFetch | apps/web/src/App.tsx:262-265 | at the first manifest that cannot be fetched the pass stops, and the playlists after it are untouched |
| CacheSpec.RepairFailsClosed | apps/web/src/App.tsx:260-282 | the whole pass removes no entry and writes only bodies matching their recorded digests |
| CacheSpec.RepairIdleOnIntactCache | apps/web/src/App.tsx:269-282 | when every playlist's tracks are intact, the pass fetches nothing, downloads nothing and changes nothing |
| CacheSpec.RepairDownloadsListedPlaylistsOnce | apps/web/src/App.tsx:262-264 | with manifests that carry their own id, every download is a listed playlist, and a list without repeats is downloaded at most once per playlist |
| CacheSpec.RepairConvergesOnHonestCache | apps/web/src/App.tsx:260-282 | after a successful download over a cache whose bodies match their digests, the repair check finds no fault |
| CacheSpec.CorruptBodyWithRightDigestSurvivesRepair | apps/web/src/App.tsx:233 | a body corrupted under a correct recorded digest is a repair fault, yet the triggered download skips it and changes nothing |
| Transport.IndexOf | apps/web/src/App.tsx:174 | -1 exactly when absent, otherwise the first position holding the id |
| Transport.IndexOfDistinct | apps/web/src/App.tsx:174 | in a queue without repeats the index of an element is its position |
| Transport.NextIndex | apps/web/src/App.tsx:175-177 | the index `handleNext` reads is inside the queue |
| Transport.PrevIndex | apps/web/src/App.tsx:187 | the index `handlePrev` reads is inside the queue |
| Transport.TargetsComeFromQueue | apps/web/src/App.tsx:172-192 | next and previous play only non-zero ids of the queue, and nothing on an empty queue |
| Transport.NextFollowsQueue | apps/web/src/App.tsx:174-180 | without shuffle, next plays the id after the current one, wrapping at the tail |
| Transport.NextFromOutsideStartsAtHead | apps/web/src/App.tsx:174-177 | a current id not in the queue makes next start at the head |
| Transport.ShuffleReachesEveryTrack | apps/web/src/App.tsx:175-176 | under shuffle the random pick alone decides, and every non-zero id is reachable |
| Transport.PrevStepsBack | apps/web/src/App.tsx:186-190 | previous plays the id one place back |
| Transport.PrevNeverWraps | apps/web/src/App.tsx:187 | previous at the head stays at the head |
| Transport.PrevUndoesNext | apps/web/src/App.tsx:172-192 | away from the tail, previous after next returns to the same id |
| Transport.NextTimesRotates | apps/web/src/App.tsx:172-182 | k presses of next move k places round the queue |
| Transport.NextFullRoundReturns | apps/web/src/App.tsx:172-182 | a full round of next presses returns to the starting id |
| Transport.EndedRespectsRepeat | apps/web/src/App.tsx:194-203 | at the end of track `q[i]`: "one" replays it; "all" without shuffle plays `q[(i+1) % |q|]`, wrapping to the head; "all" with shuffle plays the random pick; any other mode plays nothing |
| Transport.RepeatCycle | apps/web/src/App.tsx:360-362 | the toggle always yields a mode, cycles off-one-all with period three, and sends any other value to off |
| Transport.RestoreAfterPersist | apps/web/src/App.tsx:99-108 | persisting then restoring the session gives it back, except that an empty repeat string comes back as "off" |
| App.TrailAt | apps/web/src/App.tsx:251-252 | status k of the walk's trail counts k tracks done, with no error |
| App.DownloadTrailProgress | apps/web/src/App.tsx:218-258 | the statuses start at 0 of 0; `done` rises by one per status; the last has `done == total` and no error exactly on success |
| App.Client.constructor | apps/web/src/App.tsx:36-46 | the first render: nothing playing, empty queue, repeat off |
| App.Client.ResolveTrackUrl | apps/web/src/App.tsx:160-166 | an object URL over the cached body exactly when one is cached, else the stream URL |
| App.Client.Play | apps/web/src/App.tsx:146-158 | the player ends as `AfterPlay` with the queue the calling render saw |
| App.Client.HandlePlay | apps/web/src/App.tsx:146-158 | the track becomes current; an empty queue becomes the catalog; a mounted element is pointed at the source and seeked |
| App.Client.HandleNext | apps/web/src/App.tsx:172-182 | the player ends as playing `NextTarget`, or unchanged when there is none |
| App.Client.HandlePrev | apps/web/src/App.tsx:184-192 | the player ends as playing `PrevTarget`, or unchanged |
| App.Client.HandleEnded | apps/web/src/App.tsx:194-203 | the player ends as playing `EndedTarget`, or unchanged |
| App.Client.CycleRepeat | apps/web/src/App.tsx:360-362 | repeat becomes the next mode of the cycle |
| App.Client.HandleTimeUpdate | apps/web/src/App.tsx:205-216 | with an audio element, the position is remembered and the session persisted under "main"; otherwise nothing changes |
| App.Client.LoadPlaybackState | apps/web/src/App.tsx:99-108 | the session becomes the restored record when one is stored, and is unchanged otherwise |
| App.Client.SetDownloadError | apps/web/src/App.tsx:256 | the error is attached to the current status, if there is one |
| App.Client.SetDownloadStatus | apps/web/src/App.tsx:219 | the status is replaced and logged |
| App.Client.DownloadPlaylist | apps/web/src/App.tsx:218-258 | the cache ends as `Download`; the snapshot is saved before any track; the statuses set are `DownloadTrail`; exactly the non-fresh tracks reached are fetched |
| App.DownloadOfFetchedManifest | apps/web/src/App.tsx:218-253 | with the manifest fetched, the download is the walk over its tracks, and the statuses are the start followed by the walk's |
| App.Client.DownloadFromManifest | apps/web/src/App.tsx:222-257 | after a fetched manifest: the snapshot is written first, then the cache, fetches and statuses end as `Download` and `DownloadTrail` say |
| App.Client.WalkManifest | apps/web/src/App.tsx:230-253 | the loop computes `Run` and returns its error |
| App.Client.WalkStep | apps/web/src/App.tsx:231-252 | one pass of the loop extends `Run` by one track; a status counting it is set exactly when it does not fail |
| App.Client.HandleTrack | apps/web/src/App.tsx:232-251 | one iteration does `StepFor`; it fetches exactly when the entry is not fresh |
| App.Client.RepairManifest | apps/web/src/App.tsx:269-282 | no fault leaves everything unchanged; a fault downloads the playlist once and stops: the cache and fetches end as `Download`, the snapshot is saved when the manifest is fetched again, and the statuses set are `DownloadTrail` |
| App.Client.RepairDownloads | apps/web/src/App.tsx:260-267 | the cache, the URLs fetched and the playlists downloaded are those of `Repair` over the loaded playlists; the stored playlists and the statuses set are those of `RepairRecordOf`; "Repair complete." exactly when every manifest was fetched |
| App.Client.RepairPlaylist | apps/web/src/App.tsx:263-264 | one playlist of the pass extends `Repair` by `RepairStep` and the stored playlists and statuses by `RepairStepRecord`, and stops the pass exactly when its manifest fetch fails |
| App.RepairRecordAfterStop | apps/web/src/App.tsx:262-265 | once a manifest fetch has ended the pass, the later playlists change neither the cache, nor the stored playlists, nor the statuses |
| App.RepairSavesSnapshotsOfDownloads | apps/web/src/App.tsx:222-227 | with manifests that carry their own id, every playlist the pass downloads again has its manifest's snapshot stored, and every other playlist keeps its stored entry or stays absent |
| App.RepairTrailFollowsDownloads | apps/web/src/App.tsx:219-256 | the pass sets at least two statuses per download it triggers, and none when it triggers none |
| App.Client.PlayOffline | apps/web/src/App.tsx:340-346 | as written: the stored playlist is queued, then `handlePlay` runs with the queue seen before |
| App.OfflinePlayQueuesLibrary | apps/web/src/App.tsx:340-346 | as written, with nothing queued before, the queue ends as the library, so it differs from the playlist whenever the library does |
| App.Client.PlayOfflineCorrected | apps/web/src/App.tsx:340-346 | the queue ends as the stored playlist and its first track plays |
| App.CorrectedOfflinePlayQueuesPlaylist | apps/web/src/App.tsx:340-346 | corrected, the queue is the playlist and the first id is current, whatever was queued |
| Focus.Seconds | apps/api/app/api/focus.py:27 | `int(delta.total_seconds())` truncates toward zero |
| Focus.SecondsMonotonic | apps/api/app/api/focus.py:27 | whole seconds never decrease as the span grows |
| Focus.ElapsedSeconds | apps/api/app/api/focus.py:21-28 | elapsed seconds are never negative |
| Focus.PausedClockIsFrozen | apps/api/app/api/focus.py:23-25 | a paused session's elapsed time and expiry do not depend on the clock |
| Focus.ExpiryIsPermanent | apps/api/app/api/focus.py:21-32 | elapsed time never decreases with the clock, so expiry is permanent |
| Focus.ExpireIfDue | apps/api/app/api/focus.py:35-48 | completes exactly the unfinished expired sessions, at `now`, with an open pause added and cleared; anything else is unchanged and reports false |
| Focus.EnsureOwns | apps/api/app/api/focus.py:63-66 | a missing session and another user's session are both 401 |
| Focus.PauseStep | apps/api/app/api/focus.py:99-102 | only a running session pauses, recording the pause instant; otherwise 400 |
| Focus.ResumeStep | apps/api/app/api/focus.py:111-117 | only a paused session resumes, adding the open pause to the total and clearing it; otherwise 400 |
| Focus.FinishStep | apps/api/app/api/focus.py:126-133 | only an unfinished session ends, with the outcome, `ended_at` now and the open pause added; otherwise 400 |
| Focus.FinishedIsAbsorbing | apps/api/app/api/focus.py:96-152 | completed and canceled sessions admit no pause, resume, cancel, complete or expiry |
| Focus.StepsKeepWellFormed | apps/api/app/api/focus.py:96-152 | every transition keeps "paused iff pause instant set" and "ended iff finished" |
| Focus.PauseFreezesElapsed | apps/api/app/api/focus.py:101-102 | after a pause, elapsed time stays at its value at the pause instant |
| Focus.PauseIsNotCounted | apps/api/app/api/focus.py:108-120 | a whole-second pause, resumed, leaves elapsed time as it was at the pause |
| Focus.LatestLive | apps/api/app/api/focus.py:50-60 | the user's live session with the latest start, absent exactly when the user has none |
| Focus.LatestLiveIsTheLiveOne | apps/api/app/api/focus.py:50-60 | with one live session per user, the active session is that one |
| Focus.FinishingLeavesNoneLive | apps/api/app/api/focus.py:74-78 | completing the one live session leaves the user with none |
| Focus.FocusDb.constructor | apps/api/alembic/versions/0003_create_focus_sessions.py:17-37 | the migration creates the session table empty |
| Focus.FocusDb.Get | apps/api/app/api/focus.py:98 | a session is found exactly when its id is in the table |
| Focus.FocusDb.CompleteExpiredSession | apps/api/app/api/focus.py:35-48 | the row is replaced by `ExpireIfDue` and the others are untouched |
| Focus.FocusDb.Start | apps/api/app/api/focus.py:69-93 | 422 exactly outside 300..7200 (schemas/focus.py:9); 400 exactly for an in-range duration that is not a multiple of 300; 409 exactly when the user's live session has not expired at the check; success exactly otherwise, when an expired live session is completed at the check and a new running row with no pause starts at the second clock reading, leaving at most one live session per user; failures change nothing |
| Focus.FocusDb.Owned | apps/api/app/api/focus.py:63-66 | the caller's own session or 401 |
| Focus.FocusDb.Pause | apps/api/app/api/focus.py:96-105 | ownership, then `PauseStep`; only that row changes, and only on success |
| Focus.FocusDb.Resume | apps/api/app/api/focus.py:108-120 | ownership, then `ResumeStep`; only that row changes, and only on success |
| Focus.FocusDb.Finish | apps/api/app/api/focus.py:123-152 | cancel and complete: ownership, then `FinishStep`; only that row changes, and only on success |
| Focus.FocusDb.Active | apps/api/app/api/focus.py:155-162 | no content without a live session; an expired one is completed and no content returned; otherwise the session |
| FocusView.BuildOptions | apps/web/src/components/FocusView.tsx:13-19 | 25 options, option i is 5i minutes, strictly increasing, and exactly the multiples of 5 in 0..120 |
| FocusView.FormatCountdown | apps/web/src/components/FocusView.tsx:21-26 | at least five characters with the colon third from the end |
| FocusView.CountdownFields | apps/web/src/components/FocusView.tsx:21-26 | the minute field reads as the whole minutes and the two-digit second field as the seconds within the minute |
| FocusView.CountdownRoundTrip | apps/web/src/components/FocusView.tsx:21-26 | the text reads back as the seconds shown, clamped at zero |
| FocusView.CountdownInjective | apps/web/src/components/FocusView.tsx:21-26 | distinct non-negative counts show distinct texts |
| FocusView.CountdownClampsAtZero | apps/web/src/components/FocusView.tsx:22 | zero and negative counts show "00:00" |
| FocusView.MinutesLabelShowsWholeMinutes | apps/web/src/components/FocusView.tsx:28-31 | a minute label shows "00" seconds and reads back as the minutes, clamped at zero |
| FocusView.RemainingSecondsFor | apps/web/src/components/FocusView.tsx:33-40 | never more than the duration, and equal to it only before the first counted second |
| FocusView.RemainingFrozenWhilePaused | apps/web/src/components/FocusView.tsx:36-37 | while paused with a non-zero pause instant the remaining time does not depend on the clock |
| FocusView.RemainingCountsDown | apps/web/src/components/FocusView.tsx:33-40 | the remaining time never rises as the clock advances |
| FocusView.ToClient | apps/web/src/components/FocusView.tsx:34-36 | the view keeps the duration, status, pause total and presence of a pause instant |
| FocusView.ViewAgreesWithServer | apps/web/src/components/FocusView.tsx:33-40 | on whole-millisecond instants, the view's remaining time is the duration less the server's elapsed seconds |
| Catalog.Insert | apps/api/app/models/playlist.py:24-29 | inserting keeps items sorted by position and adds exactly the one item |
| Catalog.ByPosition | apps/api/app/models/playlist.py:24-29 | `playlist.items` is sorted by position and is a permutation of the playlist's rows |
| Catalog.ItemsOf | apps/api/app/models/playlist.py:24-29 | exactly the rows whose playlist is this one, each as often as it occurs in the table, and no other row |
| Catalog.ItemsOfKeepsTableOrder | apps/api/app/models/playlist.py:24-29 | rows stored in increasing id order come out in increasing id order, so the result is the table's rows of that playlist in table order |
| Catalog.DownloadUrlRoutesToTrack | apps/api/app/api/routes.py:174 | the manifest's download URL routes back to the track it was made for |
| Catalog.CatalogDb.constructor | apps/api/alembic/versions/0001_init.py:37-65 | the migration creates the playlist, item and playback tables empty; the scanned tracks are given |
| Catalog.CatalogDb.GetTrack | apps/api/app/api/routes.py:52-57 | the track exactly when it exists, otherwise 404 "Track not found" |
| Catalog.CatalogDb.DownloadTrack | apps/api/app/api/routes.py:90-98 | 404 "Track not found", then 404 "File missing"; otherwise the file with the track's type |
| Catalog.CatalogDb.PlaylistItems | apps/api/app/models/playlist.py:24-29 | the playlist's items sorted by position, a permutation of its rows |
| Catalog.CatalogDb.AddPlaylistItem | apps/api/app/api/routes.py:124-139 | 404 for a missing playlist, then for a missing track, with nothing changed; otherwise exactly one item is added and `updated_at` set |
| Catalog.CatalogDb.FindItem | apps/api/app/api/routes.py:144 | the position of the item with the id, absent exactly when there is none |
| Catalog.CatalogDb.DeletePlaylistItem | apps/api/app/api/routes.py:142-152 | 404 and nothing deleted when the item is missing or in another playlist; otherwise exactly that item is removed and `updated_at` set |
| Catalog.ManifestEntries | apps/api/app/api/routes.py:161-176 | one entry per ordered item, in order, built from the item's track |
| Catalog.CatalogDb.PlaylistManifest | apps/api/app/api/routes.py:155-183 | 404 exactly for a missing playlist; otherwise one entry per item in position order, copying the track's fields and its download URL; the manifest is consistent per track id |
| Catalog.CatalogDb.SyncPlayback | apps/api/app/api/routes.py:186-204 | the single row id 1 holds the body, whether created or overwritten, and the body is echoed |
| Catalog.EntriesFromTableAreConsistent | apps/api/app/api/routes.py:161-176 | entries built from the track table agree on each track's digest, the condition the client's cache proofs need |
| Config.Strip | apps/api/app/core/config.py:35 | the result has no whitespace at either end |
| Config.StripRemovesOnlyEdges | apps/api/app/core/config.py:35 | strip removes only leading and trailing whitespace |
| Config.Split | apps/api/app/core/config.py:35 | at least one piece, none containing a comma, and joining gives the input back |
| Config.SplitJoin | apps/api/app/core/config.py:35 | splitting undoes joining comma-free pieces |
| Config.Kept | apps/api/app/core/config.py:35 | the kept pieces are stripped and non-empty, empty exactly when every piece is blank |
| Config.KeptIsOrderedFilter | apps/api/app/core/config.py:35 | the kept pieces are the stripped pieces at strictly increasing positions, and every piece left out strips to nothing: strip each piece, keep the non-blank ones, in order |
| Config.KeptIsNonEmptyOfStripped | apps/api/app/core/config.py:35 | keeping equals stripping every piece and then dropping the empty results |
| Config.CorsList | apps/api/app/core/config.py:34-36 | never empty; every entry trimmed, non-empty and comma-free; `["*"]` when every piece is blank, and otherwise exactly the kept pieces of the comma split |
| Config.CorsListOfJoin | apps/api/app/core/config.py:34-36 | comma-free pieces joined with commas, at least one of them non-blank, read back as exactly their kept pieces |
| Config.CorsListRoundTrip | apps/api/app/core/config.py:34-36 | clean origins written comma-separated are read back in order |
| Config.DefaultAllowsAll | apps/api/app/core/config.py:22 | the default setting allows every origin |
| Config.PostInit | apps/api/app/core/config.py:38-40 | refused with "DATABASE_URL is required" exactly when the URL is empty |

## Left out

- I/O is not modelled. The network, IndexedDB transactions, the file system
  and `datetime.now` are parameters or map fields. Every handler is one
  atomic step: the interleaving of concurrent asynchronous handlers (two
  downloads of the same playlist at once, say) is not modelled.
- SHA-256 is a parameter (`Crypto.Hasher`). Only its hex rendering is
  modelled.
- Object URLs, their revocation, `audio.play()`, media-session metadata and
  all views, the auth screen and navigation are not part of this model.
- `Math.random` is the `pick` parameter of `HandleNext`. Audio time is the
  integer millisecond `currentMs`, so floating-point `currentTime` is not
  modelled.
- `stream_track` range handling, `scan_tracks`, `list_tracks`,
  `list_playlists`, `create_playlist`, `get_playlist`, `health`, auth,
  migrations and `list_sessions` are outside the modelled core.
- apps/api/app/models/focus.py is not part of this model. The session
  fields are taken from the `FocusSessionOut` schema.
- Focus.FocusDb.Start: the 422 raised by the schema is modelled with a
  fixed detail string. Pydantic's own validation message is not modelled.
- Focus.FocusDb.Finish: cancel and complete call the clock twice, once for
  the pause and once for `ended_at`. The model uses one instant for both.
- Focus.LatestLive: the database does not define an order between live
  sessions with the same start. The model picks the first in table order.
  With at most one live session per user this never matters
  (`Focus.LatestLiveIsTheLiveOne`).
- Focus.ElapsedSeconds: `paused_seconds or 0` for a null column is not
  modelled, because the column is always set by `start_focus`.
- FocusView.RemainingSecondsFor: `paused_seconds || 0` and invalid dates
  (NaN) are not modelled. Timestamps are parsed to whole milliseconds.
- FocusView.ViewAgreesWithServer: holds only for whole-millisecond
  instants. With sub-millisecond timestamps the view can count one second
  ahead of the server, because it rounds each instant separately.
- The network, a `CacheSpec.Remote`, is a fixed function, so it answers the same
  request the same way throughout a pass. Transient failures are not
  modelled. Neither is a server that changes between repair's manifest
  fetch (App.tsx:263) and the download's fetch of the same manifest
  (App.tsx:221). The source would catch such a failure in the download
  (App.tsx:255-256). `CacheSpec.RepairConvergesOnHonestCache`,
  `CacheSpec.CorruptBodyWithRightDigestSurvivesRepair` and
  `App.RepairSavesSnapshotsOfDownloads` rely on the two fetches agreeing.
- Catalog.ByPosition: the database does not define an order between items
  at the same position, and the contract states none. It states only that
  the result is sorted by position and is a permutation of its input.
- Catalog.CatalogDb.DownloadTrack: the download file name is not modelled.
- Config: reading the environment and `.env` files is not modelled.
  `Config.IsSpace` lists the characters Python's `str.isspace` accepts.

## Findings

| source | as written | input that shows it | evidently intended | confidence | as-written member | corrected member |
|---|---|---|---|---|---|---|
| apps/web/src/App.tsx:340-346 | the offline-play handler queues the stored playlist, then calls `handlePlay` from the same render, whose `queue` is still the one from before; when that was empty `handlePlay` overwrites the queue with the library (App.tsx:148-149) | nothing queued, library `[3, 7, 9]` loaded, stored playlist `[7, 9]`: track 7 plays, but the queue ends as `[3, 7, 9]` instead of `[7, 9]`, so next and previous move through the whole library | the queue becomes the stored playlist's track ids | not executed | App.Client.PlayOffline, App.OfflinePlayQueuesLibrary | App.Client.PlayOfflineCorrected, App.CorrectedOfflinePlayQueuesPlaylist |
