/**
 * The web client's controller (`App` in apps/web/src/App.tsx) as a class:
 * the React state it reads and sets becomes fields, the IndexedDB wrapper is
 * the `Store` it owns, the `<audio>` element is three fields, and the
 * network and the digest are parameters. A handler sees the state of the
 * render it was created in; `Play` takes the queue that render saw as an
 * argument so that the offline-play handler can be modelled as written.
 *
 * Ghost fields log what the pure specifications speak about: every
 * download status set, every URL fetched, and every playlist id handed to
 * `downloadPlaylist`.
 */
module App {
  import opened Wrappers
  import opened Numerals
  import opened Crypto
  import opened ContentStore
  import opened Manifests
  import opened CacheSpec
  import opened Transport

  /** What the audio element is pointed at: an object URL over a cached body, or the stream endpoint. */
  datatype Source = ObjectUrl(blob: seq<byte>) | Stream(url: string)

  /** The progress record the downloads view shows. */
  datatype DownloadStatus = DownloadStatus(playlistId: int, total: nat, done: nat, error: Option<string>)

  /** The fields `handlePlay` changes. */
  datatype Player = Player(
    currentTrackId: Option<int>,
    queue: seq<int>,
    audioUrl: Option<Source>,
    audioSrc: Option<Source>,
    seekMs: int)

  /** The fields the download and repair paths change, apart from the store. */
  datatype CacheView = CacheView(
    status: string,
    downloadStatus: Option<DownloadStatus>,
    progress: seq<DownloadStatus>,
    fetched: seq<string>,
    downloads: seq<int>)

  const PlaylistDownloaded: string := "Playlist downloaded."
  const RepairStarted: string := "Repairing downloads..."
  const RepairComplete: string := "Repair complete."

  /** `streamUrl(trackId)` (apps/web/src/lib/api.ts): the API base, then `/tracks/<id>/stream`. */
  function StreamUrl(apiBase: string, trackId: int): string {
    apiBase + "/tracks/" + DecimalString(trackId) + "/stream"
  }

  /** Where `resolveTrackUrl` points the player: the cached body if there is one, else the stream. */
  function SourceFor(tracks: map<int, StoredTrack>, apiBase: string, trackId: int): Source {
    if trackId in tracks then ObjectUrl(tracks[trackId].blob) else Stream(StreamUrl(apiBase, trackId))
  }

  /**
   * The player after `handlePlay(trackId)` in a render whose queue was
   * `queueSeen`: the track becomes current, an empty queue seen is replaced
   * by the whole catalog, and a mounted audio element is pointed at the
   * source and seeked to the remembered position.
   */
  function AfterPlay(p: Player, trackId: int, queueSeen: seq<int>, catalog: seq<int>, src: Source, mounted: bool, positionMs: int): Player {
    Player(
      Some(trackId),
      if queueSeen == [] then catalog else p.queue,
      Some(src),
      if mounted then Some(src) else p.audioSrc,
      if mounted then positionMs else p.seekMs)
  }

  /** `sha256Blob` as the digest oracle of the cache specification. */
  function DigestOf(sha: Hasher): HexDigest {
    blob => Sha256Blob(sha, blob)
  }

  /** The progress statuses of a walk that has handled `done` tracks of `total`: one per value of `done`. */
  function Trail(playlistId: int, total: nat, done: nat): (t: seq<DownloadStatus>)
    ensures |t| == done + 1
  {
    if done == 0 then [DownloadStatus(playlistId, total, 0, None)]
    else Trail(playlistId, total, done - 1) + [DownloadStatus(playlistId, total, done, None)]
  }

  /** The status at position k of the trail counts k tracks done, with no error. */
  lemma {:induction false} TrailAt(playlistId: int, total: nat, done: nat)
    ensures forall k :: 0 <= k <= done ==> Trail(playlistId, total, done)[k] == DownloadStatus(playlistId, total, k, None)
  {
    if done > 0 {
      TrailAt(playlistId, total, done - 1);
    }
  }

  /** Every status one `downloadPlaylist(playlistId)` sets, in order. */
  function DownloadTrail(tracks: map<int, StoredTrack>, playlistId: int, net: Remote, hex: HexDigest): seq<DownloadStatus> {
    var start := [DownloadStatus(playlistId, 0, 0, None)];
    match net.manifest(playlistId)
    case Failure(e) => start + [DownloadStatus(playlistId, 0, 0, Some(e))]
    case Success(m) =>
      var r := Run(tracks, m.tracks, net, hex);
      start + Trail(playlistId, |m.tracks|, r.done)
        + (if r.error.Some? then [DownloadStatus(playlistId, |m.tracks|, r.done, r.error)] else [])
  }

  /**
   * The statuses of one download: it starts at 0 of 0; after the manifest
   * every status carries the manifest length as total; `done` rises by
   * exactly one per status and never passes the total; the last status has
   * `done == total` and no error exactly when the download succeeded, and
   * otherwise repeats the last count with the error attached.
   */
  lemma DownloadTrailProgress(tracks: map<int, StoredTrack>, playlistId: int, net: Remote, hex: HexDigest)
    ensures var t := DownloadTrail(tracks, playlistId, net, hex);
            var d := Download(tracks, playlistId, net, hex);
            && |t| >= 2
            && t[0] == DownloadStatus(playlistId, 0, 0, None)
            && (forall k :: 0 < k < |t| - 1 ==> t[k].error.None? && t[k].done == k - 1)
            && (forall k :: 0 <= k < |t| ==> t[k].playlistId == playlistId && t[k].done <= t[k].total)
            && t[|t| - 1].done == d.done && t[|t| - 1].error == d.error
            && (net.manifest(playlistId).Success? ==>
                  forall k :: 0 < k < |t| ==> t[k].total == |net.manifest(playlistId).value.tracks|)
            && (d.error.None? <==> t[|t| - 1].error.None? && t[|t| - 1].done == t[|t| - 1].total)
  {
    match net.manifest(playlistId)
    case Failure(e) =>
    case Success(m) =>
      var r := Run(tracks, m.tracks, net, hex);
      var t := DownloadTrail(tracks, playlistId, net, hex);
      var trail := Trail(playlistId, |m.tracks|, r.done);
      var last := if r.error.Some? then [DownloadStatus(playlistId, |m.tracks|, r.done, r.error)] else [];
      assert t == [DownloadStatus(playlistId, 0, 0, None)] + trail + last;
      TrailAt(playlistId, |m.tracks|, r.done);
      assert forall k :: 1 <= k <= |trail| ==> t[k] == trail[k - 1];
      if r.error.Some? {
        RunStopsAtFirstFailure(tracks, m.tracks, net, hex);
        assert t[|t| - 1] == last[0];
      } else {
        assert t[|t| - 1] == trail[|trail| - 1];
      }
  }

  /** With the manifest fetched, the download is the walk, and its statuses are the walk's trail after the start. */
  lemma DownloadOfFetchedManifest(tracks: map<int, StoredTrack>, playlistId: int, m: Manifest, net: Remote, hex: HexDigest)
    requires net.manifest(playlistId) == Success(m)
    ensures var r := Run(tracks, m.tracks, net, hex);
            && Download(tracks, playlistId, net, hex) == r
            && DownloadTrail(tracks, playlistId, net, hex)
                 == [DownloadStatus(playlistId, 0, 0, None)] + Trail(playlistId, |m.tracks|, r.done)
                    + (if r.error.Some? then [DownloadStatus(playlistId, |m.tracks|, r.done, r.error)] else [])
  {
  }

  /** Regrouping the statuses of a download, which the solver does slowly inside the method that needs it. */
  lemma Regroup(a: seq<DownloadStatus>, b: seq<DownloadStatus>, c: seq<DownloadStatus>, d: seq<DownloadStatus>)
    ensures a + b + c + d == a + (b + c + d)
  {
  }

  /** The playlists after `downloadPlaylist(playlistId)`: the manifest's snapshot is saved when the manifest could be fetched. */
  function SavedPlaylists(playlists: map<int, StoredPlaylist>, playlistId: int, net: Remote): map<int, StoredPlaylist> {
    match net.manifest(playlistId)
    case Failure(_) => playlists
    case Success(m) => playlists[Snapshot(m).id := Snapshot(m)]
  }

  /** What a repair pass changes besides the cache: the saved playlists, and every status set, in order. */
  datatype RepairRecord = RepairRecord(playlists: map<int, StoredPlaylist>, trail: seq<DownloadStatus>)

  /**
   * One playlist of the pass, from the cache `p.tracks` the pass has
   * reached: a download that a fault triggers saves its snapshot and sets
   * its statuses; otherwise nothing is recorded.
   */
  function RepairStepRecord(rec: RepairRecord, p: RepairProgress, id: int, net: Remote, hex: HexDigest): RepairRecord {
    match net.manifest(id)
    case Failure(_) => rec
    case Success(m) =>
      if FirstFault(p.tracks, m.tracks, hex).None? then rec
      else RepairRecord(SavedPlaylists(rec.playlists, m.playlistId, net), rec.trail + DownloadTrail(p.tracks, m.playlistId, net, hex))
  }

  /** The cache, URLs fetched, playlists downloaded, stored playlists and statuses of the client, as one value. */
  type RepairState = (map<int, StoredTrack>, seq<string>, seq<int>, map<int, StoredPlaylist>, seq<DownloadStatus>)

  /**
   * One step of the pass for a playlist whose manifest was fetched: a
   * client that changed as `repairManifest` promises has advanced by
   * `RepairStep` and `RepairStepRecord`.
   */
  lemma RepairStepOfFetched(p: RepairProgress, rec: RepairRecord, id: int, m: Manifest, net: Remote, hex: HexDigest,
                            fetched0: seq<string>, downloads0: seq<int>, progress0: seq<DownloadStatus>,
                            before: RepairState, after: RepairState)
    requires net.manifest(id) == Success(m) && !p.stopped
    requires before.0 == p.tracks && before.1 == fetched0 + p.fetched && before.2 == downloads0 + p.downloads
    requires before.3 == rec.playlists && before.4 == progress0 + rec.trail
    requires FirstFault(before.0, m.tracks, hex).None? ==>
               && after.0 == before.0 && after.1 == before.1 && after.2 == before.2
               && after.3 == before.3 && after.4 == before.4
    requires FirstFault(before.0, m.tracks, hex).Some? ==>
               var d := Download(before.0, m.playlistId, net, hex);
               && after.0 == d.tracks && after.1 == before.1 + d.fetched && after.2 == before.2 + [m.playlistId]
               && after.3 == SavedPlaylists(before.3, m.playlistId, net)
               && after.4 == before.4 + DownloadTrail(before.0, m.playlistId, net, hex)
    ensures var q := RepairStep(p, id, net, hex);
            && !q.stopped && after.0 == q.tracks && after.1 == fetched0 + q.fetched && after.2 == downloads0 + q.downloads
    ensures var q := RepairStepRecord(rec, p, id, net, hex);
            after.3 == q.playlists && after.4 == progress0 + q.trail
  {
    if FirstFault(p.tracks, m.tracks, hex).Some? {
      RepairStepOnFault(p, rec, id, m, net, hex);
      var d := Download(p.tracks, m.playlistId, net, hex);
      var dt := DownloadTrail(p.tracks, m.playlistId, net, hex);
      SeqAssoc(fetched0, p.fetched, d.fetched);
      SeqAssoc(downloads0, p.downloads, [m.playlistId]);
      SeqAssoc(progress0, rec.trail, dt);
    } else {
      assert RepairStep(p, id, net, hex) == p && RepairStepRecord(rec, p, id, net, hex) == rec;
    }
  }

  /** Concatenation is associative; stated once so that the solver need not find it in a large context. */
  lemma SeqAssoc<T>(a: seq<T>, b: seq<T>, c: seq<T>)
    ensures a + b + c == a + (b + c)
  {
  }

  /** A playlist whose cache has a fault is downloaded again, which both halves of the pass record. */
  lemma RepairStepOnFault(p: RepairProgress, rec: RepairRecord, id: int, m: Manifest, net: Remote, hex: HexDigest)
    requires net.manifest(id) == Success(m) && FirstFault(p.tracks, m.tracks, hex).Some?
    ensures var d := Download(p.tracks, m.playlistId, net, hex);
            && RepairStep(p, id, net, hex) == RepairProgress(d.tracks, p.fetched + d.fetched, p.downloads + [m.playlistId], false)
            && RepairStepRecord(rec, p, id, net, hex)
                 == RepairRecord(SavedPlaylists(rec.playlists, m.playlistId, net), rec.trail + DownloadTrail(p.tracks, m.playlistId, net, hex))
  {
  }

  /** The record of the repair pass over `ids`, step for step beside `Repair`. */
  function RepairRecordOf(playlists: map<int, StoredPlaylist>, tracks: map<int, StoredTrack>, ids: seq<int>, net: Remote, hex: HexDigest): RepairRecord
    decreases |ids|
  {
    if ids == [] then RepairRecord(playlists, [])
    else
      var init := ids[..|ids| - 1];
      var rec := RepairRecordOf(playlists, tracks, init, net, hex);
      var p := Repair(tracks, init, net, hex);
      if p.stopped then rec else RepairStepRecord(rec, p, ids[|ids| - 1], net, hex)
  }

  lemma RepairRecordExtend(playlists: map<int, StoredPlaylist>, tracks: map<int, StoredTrack>, ids: seq<int>, i: nat, net: Remote, hex: HexDigest)
    requires i < |ids|
    ensures RepairRecordOf(playlists, tracks, ids[..i + 1], net, hex) ==
              var p := Repair(tracks, ids[..i], net, hex);
              var rec := RepairRecordOf(playlists, tracks, ids[..i], net, hex);
              if p.stopped then rec else RepairStepRecord(rec, p, ids[i], net, hex)
  {
    assert ids[..i + 1][..i] == ids[..i];
  }

  /** Once the pass has stopped, the rest of the playlists change nothing. */
  lemma {:induction false} RepairRecordAfterStop(playlists: map<int, StoredPlaylist>, tracks: map<int, StoredTrack>, ids: seq<int>, j: nat, net: Remote, hex: HexDigest)
    requires j <= |ids| && Repair(tracks, ids[..j], net, hex).stopped
    ensures Repair(tracks, ids, net, hex) == Repair(tracks, ids[..j], net, hex)
    ensures RepairRecordOf(playlists, tracks, ids, net, hex) == RepairRecordOf(playlists, tracks, ids[..j], net, hex)
    decreases |ids|
  {
    if j < |ids| {
      var init := ids[..|ids| - 1];
      assert init[..j] == ids[..j];
      RepairRecordAfterStop(playlists, tracks, init, j, net, hex);
    } else {
      assert ids[..j] == ids;
    }
  }

  /**
   * The stored playlists `cur`, after downloads of `downloads` from
   * `playlists`: every playlist downloaded has its manifest's snapshot
   * saved, and any other playlist keeps its stored entry, or stays absent.
   */
  ghost predicate SnapshotsSaved(net: Remote, playlists: map<int, StoredPlaylist>, cur: map<int, StoredPlaylist>, downloads: seq<int>) {
    && (forall j :: 0 <= j < |downloads| ==>
          net.manifest(downloads[j]).Success? && downloads[j] in cur
          && cur[downloads[j]] == Snapshot(net.manifest(downloads[j]).value))
    && (forall k :: k !in downloads ==>
          (k in cur <==> k in playlists) && (k in playlists ==> cur[k] == playlists[k]))
  }

  /** Saving the snapshot of one more download keeps `SnapshotsSaved`. */
  lemma SnapshotsSavedStep(net: Remote, playlists: map<int, StoredPlaylist>, cur: map<int, StoredPlaylist>, downloads: seq<int>, id: int)
    requires SnapshotsSaved(net, playlists, cur, downloads)
    requires net.manifest(id).Success? && Snapshot(net.manifest(id).value).id == id
    ensures SnapshotsSaved(net, playlists, SavedPlaylists(cur, id, net), downloads + [id])
  {
    var next := downloads + [id];
    var saved := SavedPlaylists(cur, id, net);
    assert saved == cur[id := Snapshot(net.manifest(id).value)];
    forall j | 0 <= j < |next|
      ensures net.manifest(next[j]).Success? && next[j] in saved
      ensures saved[next[j]] == Snapshot(net.manifest(next[j]).value)
    {
      if j < |downloads| {
        assert next[j] == downloads[j];
      }
    }
    forall k | k !in next
      ensures (k in saved <==> k in playlists) && (k in playlists ==> saved[k] == playlists[k])
    {
      assert k !in downloads && k != id;
    }
  }

  /**
   * Every playlist the pass downloads again has its snapshot saved, and a
   * playlist it does not download keeps its stored entry, or stays absent.
   * This needs manifests that answer with their own playlist id.
   */
  lemma {:induction false} RepairSavesSnapshotsOfDownloads(playlists: map<int, StoredPlaylist>, tracks: map<int, StoredTrack>, ids: seq<int>, net: Remote, hex: HexDigest)
    requires AnswersOwnId(net, ids)
    ensures SnapshotsSaved(net, playlists, RepairRecordOf(playlists, tracks, ids, net, hex).playlists, Repair(tracks, ids, net, hex).downloads)
    decreases |ids|
  {
    if ids != [] {
      var init := ids[..|ids| - 1];
      assert forall k :: 0 <= k < |init| ==> init[k] == ids[k];
      RepairSavesSnapshotsOfDownloads(playlists, tracks, init, net, hex);
      var p := Repair(tracks, init, net, hex);
      var rec := RepairRecordOf(playlists, tracks, init, net, hex);
      var id := ids[|ids| - 1];
      if !p.stopped && net.manifest(id).Success? {
        var m := net.manifest(id).value;
        if FirstFault(p.tracks, m.tracks, hex).Some? {
          assert m.playlistId == id;
          RepairStepOnFault(p, rec, id, m, net, hex);
          SnapshotsSavedStep(net, playlists, rec.playlists, p.downloads, id);
        }
      }
    }
  }

  /** The pass sets at least two statuses per download, and none when it downloads nothing. */
  lemma {:induction false} RepairTrailFollowsDownloads(playlists: map<int, StoredPlaylist>, tracks: map<int, StoredTrack>, ids: seq<int>, net: Remote, hex: HexDigest)
    ensures var r := Repair(tracks, ids, net, hex);
            var rec := RepairRecordOf(playlists, tracks, ids, net, hex);
            && |rec.trail| >= 2 * |r.downloads|
            && (r.downloads == [] ==> rec.trail == [])
    decreases |ids|
  {
    if ids != [] {
      var init := ids[..|ids| - 1];
      RepairTrailFollowsDownloads(playlists, tracks, init, net, hex);
      var p := Repair(tracks, init, net, hex);
      var id := ids[|ids| - 1];
      if !p.stopped && net.manifest(id).Success? && FirstFault(p.tracks, net.manifest(id).value.tracks, hex).Some? {
        DownloadTrailProgress(p.tracks, net.manifest(id).value.playlistId, net, hex);
      }
    }
  }

  class Client {
    /** The local database. */
    const store: Store
    /** `apiBase` from apps/web/src/lib/api.ts: the configured base or "/api". */
    const apiBase: string

    /** `tracks.map((track) => track.id)`: the library as last loaded. */
    var catalog: seq<int>
    /** The ids of `playlists`, as last loaded. */
    var playlistIds: seq<int>

    var currentTrackId: Option<int>
    var queue: seq<int>
    var shuffle: bool
    var repeat: string
    var positionMs: int
    var status: string
    var downloadStatus: Option<DownloadStatus>
    var audioUrl: Option<Source>

    /** `audioRef.current` is set; then `audioSrc` and `seekMs` are its `src` and `currentTime` in ms. */
    var audioMounted: bool
    var audioSrc: Option<Source>
    var seekMs: int

    ghost var progress: seq<DownloadStatus>
    ghost var fetched: seq<string>
    ghost var downloads: seq<int>

    ghost predicate Valid()
      reads this, store
    {
      store.Valid()
    }

    ghost function PlayerState(): Player
      reads this
    {
      Player(currentTrackId, queue, audioUrl, audioSrc, seekMs)
    }

    ghost function Cache(): CacheView
      reads this
    {
      CacheView(status, downloadStatus, progress, fetched, downloads)
    }

    function Session(): PlayerSession
      reads this
    {
      PlayerSession(currentTrackId, positionMs, queue, shuffle, repeat)
    }

    /** The first render: nothing playing, an empty queue, repeat off. */
    constructor (store: Store, apiBase: string, catalog: seq<int>, playlistIds: seq<int>, audioMounted: bool)
      requires store.Valid()
      ensures Valid()
      ensures this.store == store && this.apiBase == apiBase
      ensures this.catalog == catalog && this.playlistIds == playlistIds && this.audioMounted == audioMounted
      ensures Session() == PlayerSession(None, 0, [], false, "off")
      ensures PlayerState() == Player(None, [], None, None, 0)
      ensures Cache() == CacheView("", None, [], [], [])
    {
      this.store := store;
      this.apiBase := apiBase;
      this.catalog := catalog;
      this.playlistIds := playlistIds;
      this.audioMounted := audioMounted;
      currentTrackId, queue, shuffle, repeat, positionMs := None, [], false, "off", 0;
      status, downloadStatus, audioUrl := "", None, None;
      audioSrc, seekMs := None, 0;
      progress, fetched, downloads := [], [], [];
    }

    /** `resolveTrackUrl(trackId)`. */
    method ResolveTrackUrl(trackId: int) returns (src: Source)
      requires Valid()
      ensures src == SourceFor(store.tracks, apiBase, trackId)
      ensures src.ObjectUrl? <==> trackId in store.tracks
    {
      var stored := store.GetTrack(trackId);
      if stored.Some? {
        src := ObjectUrl(stored.value.blob);
      } else {
        src := Stream(StreamUrl(apiBase, trackId));
      }
    }

    /** `handlePlay(trackId)` running in a render whose `queue` was `queueSeen`. */
    method Play(trackId: int, queueSeen: seq<int>)
      requires Valid()
      modifies this`currentTrackId, this`queue, this`audioUrl, this`audioSrc, this`seekMs
      ensures PlayerState() ==
                AfterPlay(old(PlayerState()), trackId, queueSeen, catalog, SourceFor(store.tracks, apiBase, trackId), audioMounted, positionMs)
    {
      currentTrackId := Some(trackId);
      if queueSeen == [] {
        queue := catalog;
      }
      var src := ResolveTrackUrl(trackId);
      audioUrl := Some(src);
      if audioMounted {
        audioSrc := Some(src);
        seekMs := positionMs;
      }
    }

    /** `handlePlay(trackId)` from a handler of the current render. */
    method HandlePlay(trackId: int)
      requires Valid()
      modifies this`currentTrackId, this`queue, this`audioUrl, this`audioSrc, this`seekMs
      ensures PlayerState() ==
                AfterPlay(old(PlayerState()), trackId, old(queue), catalog, SourceFor(store.tracks, apiBase, trackId), audioMounted, positionMs)
    {
      Play(trackId, queue);
    }

    /** Plays `target` if there is one, from a handler of the current render. */
    ghost function AfterTarget(p: Player, target: Option<int>): Player
      reads this, store
    {
      match target
      case None => p
      case Some(id) => AfterPlay(p, id, p.queue, catalog, SourceFor(store.tracks, apiBase, id), audioMounted, positionMs)
    }

    /** `handleNext()`; `pick` is what `Math.floor(Math.random() * queue.length)` gives. */
    method HandleNext(pick: nat)
      requires Valid()
      requires queue != [] ==> pick < |queue|
      modifies this`currentTrackId, this`queue, this`audioUrl, this`audioSrc, this`seekMs
      ensures PlayerState() == AfterTarget(old(PlayerState()), NextTarget(old(queue), old(currentTrackId), shuffle, pick))
    {
      if queue == [] {
        return;
      }
      var nextIndex := NextIndex(queue, currentTrackId, shuffle, pick);
      var nextId := queue[nextIndex];
      if nextId != 0 {
        HandlePlay(nextId);
      }
    }

    /** `handlePrev()`. */
    method HandlePrev()
      requires Valid()
      modifies this`currentTrackId, this`queue, this`audioUrl, this`audioSrc, this`seekMs
      ensures PlayerState() == AfterTarget(old(PlayerState()), PrevTarget(old(queue), old(currentTrackId)))
    {
      if queue == [] {
        return;
      }
      var prevIndex := PrevIndex(queue, currentTrackId);
      var prevId := queue[prevIndex];
      if prevId != 0 {
        HandlePlay(prevId);
      }
    }

    /** `handleEnded()`: what the player does when a track finishes. */
    method HandleEnded(pick: nat)
      requires Valid()
      requires queue != [] ==> pick < |queue|
      modifies this`currentTrackId, this`queue, this`audioUrl, this`audioSrc, this`seekMs
      ensures PlayerState() ==
                AfterTarget(old(PlayerState()), EndedTarget(repeat, old(queue), old(currentTrackId), shuffle, pick))
    {
      if repeat == "one" {
        HandlePlay(currentTrackId.GetOr(0));
        return;
      }
      if repeat == "all" {
        HandleNext(pick);
        return;
      }
    }

    /** The repeat button. */
    method CycleRepeat()
      modifies this`repeat
      ensures repeat == NextRepeat(old(repeat))
    {
      repeat := NextRepeat(repeat);
    }

    /**
     * `handleTimeUpdate()`; `currentMs` is `Math.floor(currentTime * 1000)`.
     * With no audio element it does nothing; otherwise it remembers the
     * position and persists the session under "main".
     */
    method HandleTimeUpdate(currentMs: nat)
      requires Valid()
      modifies this`positionMs, store
      ensures Valid()
      ensures !audioMounted ==> positionMs == old(positionMs) && store.playbackState == old(store.playbackState)
      ensures audioMounted ==> positionMs == currentMs
      ensures audioMounted ==> store.playbackState == map[MainKey := Persisted(Session())]
      ensures store.tracks == old(store.tracks) && store.playlists == old(store.playlists)
    {
      if !audioMounted {
        return;
      }
      positionMs := currentMs;
      store.SavePlaybackState(Persisted(Session()));
    }

    /** `loadPlaybackState()`: adopt the persisted session, if there is one. */
    method LoadPlaybackState()
      requires Valid()
      modifies this`currentTrackId, this`positionMs, this`queue, this`shuffle, this`repeat
      ensures MainKey in store.playbackState ==> Session() == Restored(store.playbackState[MainKey])
      ensures MainKey !in store.playbackState ==> Session() == old(Session())
    {
      var stored := store.GetPlaybackState();
      if stored.Some? {
        var s := Restored(stored.value);
        currentTrackId, positionMs, queue, shuffle, repeat := s.currentTrackId, s.positionMs, s.queue, s.shuffle, s.repeat;
      }
    }

    /** Sets the error on the current download status (`prev ? { ...prev, error } : prev`). */
    method SetDownloadError(message: string)
      modifies this`downloadStatus, this`progress
      ensures downloadStatus == if old(downloadStatus).Some? then Some(old(downloadStatus).value.(error := Some(message))) else None
      ensures progress == if old(downloadStatus).Some? then old(progress) + [downloadStatus.value] else old(progress)
    {
      if downloadStatus.Some? {
        downloadStatus := Some(downloadStatus.value.(error := Some(message)));
        progress := progress + [downloadStatus.value];
      }
    }

    /** Sets a new download status. */
    method SetDownloadStatus(s: DownloadStatus)
      modifies this`downloadStatus, this`progress
      ensures downloadStatus == Some(s) && progress == old(progress) + [s]
    {
      downloadStatus := Some(s);
      progress := progress + [s];
    }

    /**
     * `downloadPlaylist(playlistId)`: the cache ends as `Download` says, the
     * snapshot is saved before any track is looked at, the statuses set are
     * `DownloadTrail`, and exactly the URLs of the tracks that were not
     * fresh when reached are fetched.
     */
    method DownloadPlaylist(playlistId: int, net: Remote, sha: Hasher)
      requires Valid()
      modifies this`status, this`downloadStatus, this`progress, this`fetched, this`downloads, store
      ensures Valid()
      ensures var d := Download(old(store.tracks), playlistId, net, DigestOf(sha));
              && store.tracks == d.tracks
              && fetched == old(fetched) + d.fetched
              && progress == old(progress) + DownloadTrail(old(store.tracks), playlistId, net, DigestOf(sha))
              && downloadStatus == Some(progress[|progress| - 1])
              && status == (if d.error.None? then PlaylistDownloaded else old(status))
      ensures net.manifest(playlistId).Failure? ==> store.playlists == old(store.playlists) && store.log == old(store.log)
      ensures net.manifest(playlistId).Success? ==>
                var snapshot := Snapshot(net.manifest(playlistId).value);
                && store.playlists == old(store.playlists)[snapshot.id := snapshot]
                && |store.log| > |old(store.log)|
                && store.log[|old(store.log)|] == PutPlaylist(snapshot)
      ensures downloads == old(downloads) + [playlistId]
      ensures store.playbackState == old(store.playbackState)
    {
      downloads := downloads + [playlistId];
      var start := DownloadStatus(playlistId, 0, 0, None);
      SetDownloadStatus(start);
      ghost var tracks0 := store.tracks;
      ghost var hex := DigestOf(sha);
      var manifest := net.manifest(playlistId);
      if manifest.Failure? {
        SetDownloadError(manifest.error);
        assert Download(tracks0, playlistId, net, hex) == Progress(tracks0, 0, [], Some(manifest.error));
        assert DownloadTrail(tracks0, playlistId, net, hex) == [start] + [DownloadStatus(playlistId, 0, 0, Some(manifest.error))];
        return;
      }
      DownloadFromManifest(playlistId, manifest.value, net, sha, old(progress));
    }

    /**
     * `downloadPlaylist` once the manifest is in: save the snapshot, walk
     * the tracks, and set the final status, completing what
     * `DownloadPlaylist` promises for a manifest that was fetched.
     */
    method DownloadFromManifest(playlistId: int, m: Manifest, net: Remote, sha: Hasher, ghost progress0: seq<DownloadStatus>)
      requires Valid()
      requires net.manifest(playlistId) == Success(m)
      requires progress == progress0 + [DownloadStatus(playlistId, 0, 0, None)]
      modifies this`status, this`downloadStatus, this`progress, this`fetched, store
      ensures Valid()
      ensures var d := Download(old(store.tracks), playlistId, net, DigestOf(sha));
              && store.tracks == d.tracks
              && fetched == old(fetched) + d.fetched
              && progress == progress0 + DownloadTrail(old(store.tracks), playlistId, net, DigestOf(sha))
              && downloadStatus == Some(progress[|progress| - 1])
              && status == (if d.error.None? then PlaylistDownloaded else old(status))
      ensures var snapshot := Snapshot(m);
              && store.playlists == old(store.playlists)[snapshot.id := snapshot]
              && |store.log| > |old(store.log)|
              && store.log[|old(store.log)|] == PutPlaylist(snapshot)
      ensures store.playbackState == old(store.playbackState)
    {
      ghost var tracks0 := store.tracks;
      ghost var hex := DigestOf(sha);
      store.SavePlaylist(Snapshot(m));
      ghost var afterSnapshot := store.log;
      var failure := WalkManifest(playlistId, m.tracks, net, sha);
      ghost var r := Run(tracks0, m.tracks, net, hex);
      DownloadOfFetchedManifest(tracks0, playlistId, m, net, hex);
      assert store.log[..|afterSnapshot|] == afterSnapshot;
      assert store.log[|old(store.log)|] == afterSnapshot[|old(store.log)|];
      ghost var start := [DownloadStatus(playlistId, 0, 0, None)];
      ghost var trail := Trail(playlistId, |m.tracks|, r.done);
      ghost var last: seq<DownloadStatus> := if r.error.Some? then [DownloadStatus(playlistId, |m.tracks|, r.done, r.error)] else [];
      if failure.Some? {
        SetDownloadError(failure.value);
      } else {
        status := PlaylistDownloaded;
      }
      assert progress == progress0 + (start + trail + last) by {
        assert progress == progress0 + start + trail + last;
        Regroup(progress0, start, trail, last);
      }
    }

    /**
     * The loop of `downloadPlaylist` over the manifest tracks: it computes
     * `Run` from the cache it starts with, and sets one status per track
     * handled. It returns the error that ends it, if any.
     */
    method WalkManifest(playlistId: int, ts: seq<ManifestTrack>, net: Remote, sha: Hasher) returns (failure: Option<string>)
      requires Valid()
      modifies this`downloadStatus, this`progress, this`fetched, store
      ensures Valid()
      ensures var r := Run(old(store.tracks), ts, net, DigestOf(sha));
              && failure == r.error
              && store.tracks == r.tracks
              && fetched == old(fetched) + r.fetched
              && progress == old(progress) + Trail(playlistId, |ts|, r.done)
              && downloadStatus == Some(DownloadStatus(playlistId, |ts|, r.done, None))
      ensures store.playlists == old(store.playlists) && store.playbackState == old(store.playbackState)
      ensures |store.log| >= |old(store.log)| && store.log[..|old(store.log)|] == old(store.log)
    {
      ghost var tracks0 := store.tracks;
      ghost var hex := DigestOf(sha);
      ghost var r := Progress(tracks0, 0, [], None);
      SetDownloadStatus(DownloadStatus(playlistId, |ts|, 0, None));
      var done := 0;
      assert ts[..0] == [];
      while done < |ts|
        invariant Valid()
        invariant done <= |ts|
        invariant r == Run(tracks0, ts[..done], net, hex)
        invariant r.error.None? && r.done == done
        invariant store.tracks == r.tracks
        invariant fetched == old(fetched) + r.fetched
        invariant progress == old(progress) + Trail(playlistId, |ts|, done)
        invariant downloadStatus == Some(DownloadStatus(playlistId, |ts|, done, None))
        invariant store.playlists == old(store.playlists) && store.playbackState == old(store.playbackState)
        invariant |store.log| >= |old(store.log)| && store.log[..|old(store.log)|] == old(store.log)
      {
        var stepFailure := WalkStep(playlistId, ts, done, net, sha, tracks0, old(fetched));
        r := Run(tracks0, ts[..done + 1], net, hex);
        if stepFailure.Some? {
          RunAfterFailure(tracks0, ts, done + 1, net, hex);
          return stepFailure;
        }
        done := done + 1;
        assert progress == old(progress) + Trail(playlistId, |ts|, done);
      }
      assert ts[..done] == ts;
      return None;
    }

    /**
     * The body of that loop for track `done`: handle the track and, when it
     * does not fail, count it in the status. It extends the walk by one track.
     */
    method WalkStep(playlistId: int, ts: seq<ManifestTrack>, done: nat, net: Remote, sha: Hasher,
                    ghost tracks0: map<int, StoredTrack>, ghost fetched0: seq<string>) returns (failure: Option<string>)
      requires Valid()
      requires done < |ts|
      requires var r := Run(tracks0, ts[..done], net, DigestOf(sha));
               r.error.None? && store.tracks == r.tracks && fetched == fetched0 + r.fetched
      modifies this`downloadStatus, this`progress, this`fetched, store
      ensures Valid()
      ensures var r := Run(tracks0, ts[..done + 1], net, DigestOf(sha));
              && failure == r.error && store.tracks == r.tracks && fetched == fetched0 + r.fetched
              && r.done == (if failure.None? then done + 1 else done)
      ensures failure.None? ==>
                && progress == old(progress) + [DownloadStatus(playlistId, |ts|, done + 1, None)]
                && downloadStatus == Some(DownloadStatus(playlistId, |ts|, done + 1, None))
      ensures failure.Some? ==> progress == old(progress) && downloadStatus == old(downloadStatus)
      ensures store.playlists == old(store.playlists) && store.playbackState == old(store.playbackState)
      ensures |store.log| >= |old(store.log)| && store.log[..|old(store.log)|] == old(store.log)
    {
      ghost var hex := DigestOf(sha);
      ghost var r := Run(tracks0, ts[..done], net, hex);
      RunExtend(tracks0, ts, done, net, hex);
      failure := HandleTrack(ts[done], net, sha);
      assert Run(tracks0, ts[..done + 1], net, hex) == Advance(r, ts[done], net, hex);
      if failure.None? {
        SetDownloadStatus(DownloadStatus(playlistId, |ts|, done + 1, None));
      }
    }

    /**
     * One iteration of that loop: fetch the track unless its cached entry is
     * fresh, and save the body only if its digest is the manifest's. It
     * returns the error the iteration throws, if any.
     */
    method HandleTrack(track: ManifestTrack, net: Remote, sha: Hasher) returns (failure: Option<string>)
      requires Valid()
      modifies this`fetched, store
      ensures Valid()
      ensures var step := StepFor(old(store.tracks), track, net, DigestOf(sha));
              && (failure.Some? <==> step.Fail?)
              && (step.Fail? ==> failure.value == step.message)
              && store.tracks == (if step.Save? then old(store.tracks)[track.id := step.entry] else old(store.tracks))
      ensures fetched == if Fresh(old(store.tracks), track) then old(fetched) else old(fetched) + [track.downloadUrl]
      ensures store.playlists == old(store.playlists) && store.playbackState == old(store.playbackState)
      ensures |store.log| >= |old(store.log)| && store.log[..|old(store.log)|] == old(store.log)
    {
      var stored := store.GetTrack(track.id);
      if stored.Some? && stored.value.sha256 == track.sha256 {
        return None;
      }
      fetched := fetched + [track.downloadUrl];
      var resp := net.download(track.downloadUrl);
      if resp.Rejected? {
        return Some(resp.message);
      }
      if resp.NotOk? {
        return Some(FailedMessage(track));
      }
      var hash := Sha256Blob(sha, resp.body);
      if hash != track.sha256 {
        return Some(MismatchMessage(track));
      }
      store.SaveTrack(EntryFor(track, resp.body));
      return None;
    }

    /**
     * `repairManifest(manifest)`: re-hash the cached bodies in manifest
     * order; at the first missing or mismatching one, download the playlist
     * again and stop. With no fault nothing changes.
     */
    method RepairManifest(m: Manifest, net: Remote, sha: Hasher)
      requires Valid()
      modifies this`status, this`downloadStatus, this`progress, this`fetched, this`downloads, store
      ensures Valid()
      ensures FirstFault(old(store.tracks), m.tracks, DigestOf(sha)).None? ==>
                && store.tracks == old(store.tracks) && store.playlists == old(store.playlists)
                && Cache() == old(Cache())
      ensures FirstFault(old(store.tracks), m.tracks, DigestOf(sha)).Some? ==>
                && downloads == old(downloads) + [m.playlistId]
                && store.tracks == Download(old(store.tracks), m.playlistId, net, DigestOf(sha)).tracks
                && fetched == old(fetched) + Download(old(store.tracks), m.playlistId, net, DigestOf(sha)).fetched
                && store.playlists == SavedPlaylists(old(store.playlists), m.playlistId, net)
                && progress == old(progress) + DownloadTrail(old(store.tracks), m.playlistId, net, DigestOf(sha))
      ensures store.playbackState == old(store.playbackState)
      ensures status == old(status) || status == PlaylistDownloaded
    {
      var i := 0;
      while i < |m.tracks|
        invariant i <= |m.tracks|
        invariant forall k :: 0 <= k < i ==> Intact(store.tracks, m.tracks[k], DigestOf(sha))
        invariant store.tracks == old(store.tracks) && store.playlists == old(store.playlists)
        invariant store.playbackState == old(store.playbackState)
        invariant Cache() == old(Cache())
      {
        var track := m.tracks[i];
        var stored := store.GetTrack(track.id);
        if stored.None? {
          DownloadPlaylist(m.playlistId, net, sha);
          return;
        }
        var hash := Sha256Blob(sha, stored.value.blob);
        if hash != track.sha256 {
          DownloadPlaylist(m.playlistId, net, sha);
          return;
        }
        i := i + 1;
      }
    }

    /**
     * `repairDownloads()`: repair every playlist in turn, as `Repair` says.
     * A manifest that cannot be fetched ends the pass there, and the
     * completion message is only shown when every manifest was fetched.
     */
    method RepairDownloads(net: Remote, sha: Hasher)
      requires Valid()
      modifies this`status, this`downloadStatus, this`progress, this`fetched, this`downloads, store
      ensures Valid()
      ensures var r := Repair(old(store.tracks), playlistIds, net, DigestOf(sha));
              && store.tracks == r.tracks
              && fetched == old(fetched) + r.fetched
              && downloads == old(downloads) + r.downloads
              && (status == RepairComplete <==> !r.stopped)
      ensures var rec := RepairRecordOf(old(store.playlists), old(store.tracks), playlistIds, net, DigestOf(sha));
              store.playlists == rec.playlists && progress == old(progress) + rec.trail
      ensures status == RepairComplete <==> forall k :: 0 <= k < |playlistIds| ==> net.manifest(playlistIds[k]).Success?
      ensures store.playbackState == old(store.playbackState)
    {
      ghost var tracks0 := store.tracks;
      ghost var playlists0 := store.playlists;
      ghost var hex := DigestOf(sha);
      status := RepairStarted;
      var i := 0;
      assert playlistIds[..0] == [];
      while i < |playlistIds|
        invariant Valid()
        invariant i <= |playlistIds|
        invariant var r := Repair(tracks0, playlistIds[..i], net, hex);
                  && !r.stopped && store.tracks == r.tracks
                  && fetched == old(fetched) + r.fetched && downloads == old(downloads) + r.downloads
        invariant var rec := RepairRecordOf(playlists0, tracks0, playlistIds[..i], net, hex);
                  store.playlists == rec.playlists && progress == old(progress) + rec.trail
        invariant status == RepairStarted || status == PlaylistDownloaded
        invariant store.playbackState == old(store.playbackState)
      {
        RepairExtend(tracks0, playlistIds, i, net, hex);
        RepairRecordExtend(playlists0, tracks0, playlistIds, i, net, hex);
        var stopped := RepairPlaylist(playlistIds[i], net, sha, Repair(tracks0, playlistIds[..i], net, hex), old(fetched), old(downloads),
                                      RepairRecordOf(playlists0, tracks0, playlistIds[..i], net, hex), old(progress));
        if stopped {
          RepairRecordAfterStop(playlists0, tracks0, playlistIds, i + 1, net, hex);
          RepairCompletesIffAllFetched(tracks0, playlistIds, net, hex);
          return;
        }
        i := i + 1;
      }
      assert playlistIds[..i] == playlistIds;
      RepairCompletesIffAllFetched(tracks0, playlistIds, net, hex);
      status := RepairComplete;
    }

    /**
     * The body of that loop for one playlist: fetch its manifest and repair
     * it. It extends the pass by one playlist and says whether the fetch
     * failed.
     */
    method RepairPlaylist(id: int, net: Remote, sha: Hasher,
                          ghost p: RepairProgress, ghost fetched0: seq<string>, ghost downloads0: seq<int>,
                          ghost rec: RepairRecord, ghost progress0: seq<DownloadStatus>) returns (stopped: bool)
      requires Valid() && !p.stopped
      requires store.tracks == p.tracks && fetched == fetched0 + p.fetched && downloads == downloads0 + p.downloads
      requires store.playlists == rec.playlists && progress == progress0 + rec.trail
      modifies this`status, this`downloadStatus, this`progress, this`fetched, this`downloads, store
      ensures Valid()
      ensures var q := RepairStep(p, id, net, DigestOf(sha));
              && stopped == q.stopped && store.tracks == q.tracks
              && fetched == fetched0 + q.fetched && downloads == downloads0 + q.downloads
      ensures var q := RepairStepRecord(rec, p, id, net, DigestOf(sha));
              store.playlists == q.playlists && progress == progress0 + q.trail
      ensures stopped <==> net.manifest(id).Failure?
      ensures status == old(status) || status == PlaylistDownloaded
      ensures store.playbackState == old(store.playbackState)
    {
      var manifest := net.manifest(id);
      if manifest.Failure? {
        return true;
      }
      ghost var before := (store.tracks, fetched, downloads, store.playlists, progress);
      RepairManifest(manifest.value, net, sha);
      RepairStepOfFetched(p, rec, id, manifest.value, net, DigestOf(sha), fetched0, downloads0, progress0,
                          before, (store.tracks, fetched, downloads, store.playlists, progress));
      stopped := false;
    }

    /**
     * The offline-play handler, as written: it sets the queue to the stored
     * playlist and then calls `handlePlay` from the same render, which still
     * sees the queue from before.
     */
    method PlayOffline(playlistId: int)
      requires Valid()
      modifies this`currentTrackId, this`queue, this`audioUrl, this`audioSrc, this`seekMs
      ensures var ids := if playlistId in store.playlists then store.playlists[playlistId].trackIds else [];
              ids != [] ==>
                PlayerState() == AfterPlay(old(PlayerState()).(queue := ids), ids[0], old(queue), catalog,
                                           SourceFor(store.tracks, apiBase, ids[0]), audioMounted, positionMs)
      ensures playlistId !in store.playlists || store.playlists[playlistId].trackIds == [] ==> PlayerState() == old(PlayerState())
    {
      var stored := store.GetPlaylist(playlistId);
      if stored.Some? && |stored.value.trackIds| > 0 {
        var seen := queue;
        queue := stored.value.trackIds;
        Play(stored.value.trackIds[0], seen);
      }
    }

    /** The offline-play handler as intended: `handlePlay` sees the playlist just queued. */
    method PlayOfflineCorrected(playlistId: int)
      requires Valid()
      modifies this`currentTrackId, this`queue, this`audioUrl, this`audioSrc, this`seekMs
      ensures var ids := if playlistId in store.playlists then store.playlists[playlistId].trackIds else [];
              ids != [] ==> queue == ids && currentTrackId == Some(ids[0])
      ensures playlistId !in store.playlists || store.playlists[playlistId].trackIds == [] ==> PlayerState() == old(PlayerState())
    {
      var stored := store.GetPlaylist(playlistId);
      if stored.Some? && |stored.value.trackIds| > 0 {
        queue := stored.value.trackIds;
        Play(stored.value.trackIds[0], queue);
      }
    }
  }

  /**
   * The offline-play handler as written loses the playlist when nothing was
   * queued before: the queue becomes the whole library, so with library
   * `[3, 7, 9]` and stored playlist `[7, 9]` it ends as `[3, 7, 9]`.
   */
  lemma OfflinePlayQueuesLibrary(p: Player, ids: seq<int>, catalog: seq<int>, src: Source, mounted: bool, positionMs: int)
    requires p.queue == [] && ids != []
    ensures AfterPlay(p.(queue := ids), ids[0], p.queue, catalog, src, mounted, positionMs).queue == catalog
    ensures catalog != ids ==> AfterPlay(p.(queue := ids), ids[0], p.queue, catalog, src, mounted, positionMs).queue != ids
  {
  }

  /** As intended, the queue after offline play is the playlist, whatever was queued before. */
  lemma CorrectedOfflinePlayQueuesPlaylist(p: Player, ids: seq<int>, catalog: seq<int>, src: Source, mounted: bool, positionMs: int)
    requires ids != []
    ensures AfterPlay(p.(queue := ids), ids[0], ids, catalog, src, mounted, positionMs).queue == ids
    ensures AfterPlay(p.(queue := ids), ids[0], ids, catalog, src, mounted, positionMs).currentTrackId == Some(ids[0])
  {
  }
}
