/**
 * What `downloadPlaylist` and `repairManifest` (apps/web/src/App.tsx) do to
 * the track cache, as functions of the cache, the manifest, the network and
 * the digest function. `Run` folds the per-track step over the manifest in
 * order; `App.Client.DownloadPlaylist` is proved to compute it, and the
 * lemmas here state what the cache manager promises: fail-closed writes,
 * progress by exactly one per track, all tracks fresh on success, nothing
 * fetched on a second pass.
 */
module CacheSpec {
  import opened Wrappers
  import opened Crypto
  import opened ContentStore
  import opened Manifests

  /**
   * The digest check's oracle: a blob's digest as a hex string. The client
   * binds it to `Sha256Blob` over the platform's SHA-256.
   */
  type HexDigest = seq<byte> -> string

  /** What `fetch(track.download_url)` gives: a body, a non-ok status, or a rejection with its message. */
  datatype Response = Ok(body: seq<byte>) | NotOk | Rejected(message: string)

  /** The network as the client sees it: the manifest endpoint and the download URLs. */
  datatype Remote = Remote(manifest: int -> Result<Manifest, string>, download: string -> Response)

  /** The playlist snapshot saved before any track is looked at. */
  function Snapshot(m: Manifest): (p: StoredPlaylist)
    ensures p.id == m.playlistId && p.name == m.name && p.updatedAt == m.updatedAt
    ensures |p.trackIds| == |m.tracks|
    ensures forall i :: 0 <= i < |m.tracks| ==> p.trackIds[i] == m.tracks[i].id
  {
    StoredPlaylist(m.playlistId, m.name, TrackIds(m.tracks), m.updatedAt)
  }

  /** A cached entry exists and its recorded digest is the manifest's. */
  predicate Fresh(tracks: map<int, StoredTrack>, t: ManifestTrack) {
    t.id in tracks && tracks[t.id].sha256 == t.sha256
  }

  /** The record `downloadPlaylist` saves for a verified body. */
  function EntryFor(t: ManifestTrack, blob: seq<byte>): StoredTrack {
    StoredTrack(t.id, blob, t.mime, t.sha256, t.sizeBytes)
  }

  function FailedMessage(t: ManifestTrack): string { "Failed to download " + t.title }
  function MismatchMessage(t: ManifestTrack): string { "Hash mismatch for " + t.title }

  datatype Step = Skip | Save(entry: StoredTrack) | Fail(message: string)

  /** What happens to one manifest track. */
  function StepFor(tracks: map<int, StoredTrack>, t: ManifestTrack, net: Remote, hex: HexDigest): Step {
    if Fresh(tracks, t) then Skip
    else match net.download(t.downloadUrl)
      case NotOk => Fail(FailedMessage(t))
      case Rejected(msg) => Fail(msg)
      case Ok(blob) =>
        if hex(blob) != t.sha256 then Fail(MismatchMessage(t)) else Save(EntryFor(t, blob))
  }

  /**
   * A fresh track is skipped without a fetch; otherwise the body is saved
   * exactly when the response is ok and its digest is the manifest's; a
   * non-ok response fails with "Failed to download", a wrong digest with
   * "Hash mismatch".
   */
  lemma StepForMeaning(tracks: map<int, StoredTrack>, t: ManifestTrack, net: Remote, hex: HexDigest)
    ensures var s := StepFor(tracks, t, net, hex);
            var resp := net.download(t.downloadUrl);
            && (s.Skip? <==> Fresh(tracks, t))
            && (s.Save? <==> !Fresh(tracks, t) && resp.Ok? && hex(resp.body) == t.sha256)
            && (s.Save? ==> s.entry == EntryFor(t, resp.body) && Verified(s.entry, hex))
            && (s.Fail? && resp.Ok? ==> s.message == MismatchMessage(t))
            && (s.Fail? && resp.NotOk? ==> s.message == FailedMessage(t))
  {
  }

  /** The cache, the `done` counter, the URLs fetched and the error, after some tracks. */
  datatype Progress = Progress(tracks: map<int, StoredTrack>, done: nat, fetched: seq<string>, error: Option<string>)

  /** One more track, after a prefix that did not fail. */
  function Advance(p: Progress, t: ManifestTrack, net: Remote, hex: HexDigest): Progress {
    var fetched := if Fresh(p.tracks, t) then p.fetched else p.fetched + [t.downloadUrl];
    match StepFor(p.tracks, t, net, hex)
    case Skip => Progress(p.tracks, p.done + 1, fetched, None)
    case Save(e) => Progress(p.tracks[t.id := e], p.done + 1, fetched, None)
    case Fail(msg) => Progress(p.tracks, p.done, fetched, Some(msg))
  }

  /** The manifest walked in order; the first failure stops the walk. */
  function Run(tracks: map<int, StoredTrack>, ts: seq<ManifestTrack>, net: Remote, hex: HexDigest): (p: Progress)
    ensures p.done <= |ts|
    ensures p.error.None? ==> p.done == |ts|
    decreases |ts|
  {
    if ts == [] then Progress(tracks, 0, [], None)
    else
      var p := Run(tracks, ts[..|ts| - 1], net, hex);
      if p.error.Some? then p else Advance(p, ts[|ts| - 1], net, hex)
  }

  /** The walk over one more manifest track: `Run` is a left fold. */
  lemma RunExtend(tracks: map<int, StoredTrack>, ts: seq<ManifestTrack>, i: nat, net: Remote, hex: HexDigest)
    requires i < |ts|
    ensures Run(tracks, ts[..i + 1], net, hex) ==
              var p := Run(tracks, ts[..i], net, hex);
              if p.error.Some? then p else Advance(p, ts[i], net, hex)
  {
    assert ts[..i + 1][..i] == ts[..i];
  }

  /** Once a prefix has failed, the rest of the manifest is never looked at. */
  lemma {:induction false} RunAfterFailure(tracks: map<int, StoredTrack>, ts: seq<ManifestTrack>, k: nat, net: Remote, hex: HexDigest)
    requires k <= |ts|
    requires Run(tracks, ts[..k], net, hex).error.Some?
    ensures Run(tracks, ts, net, hex) == Run(tracks, ts[..k], net, hex)
    decreases |ts| - k
  {
    if k < |ts| {
      RunExtend(tracks, ts, k, net, hex);
      RunAfterFailure(tracks, ts, k + 1, net, hex);
    } else {
      assert ts[..k] == ts;
    }
  }

  /**
   * `done` counts the tracks handled and never passes the manifest length; a
   * run that stops stops at track `done`, with that track's own error and the
   * cache as it was after the tracks before it.
   */
  lemma {:induction false} RunStopsAtFirstFailure(tracks: map<int, StoredTrack>, ts: seq<ManifestTrack>, net: Remote, hex: HexDigest)
    ensures Run(tracks, ts, net, hex).error.Some? ==>
              var p := Run(tracks, ts, net, hex);
              var before := Run(tracks, ts[..p.done], net, hex);
              && p.done < |ts|
              && before.error.None?
              && p.tracks == before.tracks
              && StepFor(before.tracks, ts[p.done], net, hex) == Fail(p.error.value)
    decreases |ts|
  {
    if ts != [] {
      var init := ts[..|ts| - 1];
      RunStopsAtFirstFailure(tracks, init, net, hex);
      var p := Run(tracks, init, net, hex);
      if p.error.None? {
        assert ts[..p.done] == init;
      } else {
        assert ts[..p.done] == init[..p.done];
      }
    }
  }

  /**
   * A whole `downloadPlaylist(playlistId)`: a manifest that cannot be
   * fetched fails before any track is handled; otherwise the walk.
   */
  function Download(tracks: map<int, StoredTrack>, playlistId: int, net: Remote, hex: HexDigest): Progress {
    match net.manifest(playlistId)
    case Failure(e) => Progress(tracks, 0, [], Some(e))
    case Success(m) => Run(tracks, m.tracks, net, hex)
  }

  /** An entry that verifies: its body's digest is the digest it is recorded under. */
  predicate Verified(e: StoredTrack, hex: HexDigest) {
    hex(e.blob) == e.sha256
  }

  /** Entries are never removed, and each is either the old one or a verified write. */
  ghost predicate KeptOrVerified(before: map<int, StoredTrack>, after: map<int, StoredTrack>, hex: HexDigest) {
    && before.Keys <= after.Keys
    && forall id :: id in after ==>
         (id in before && after[id] == before[id]) || (after[id].id == id && Verified(after[id], hex))
  }

  lemma AdvanceFailsClosed(p: Progress, t: ManifestTrack, net: Remote, hex: HexDigest)
    ensures KeptOrVerified(p.tracks, Advance(p, t, net, hex).tracks, hex)
  {
    var s := StepFor(p.tracks, t, net, hex);
    if s.Save? {
      assert Verified(s.entry, hex);
    }
  }

  lemma KeptOrVerifiedTransitive(a: map<int, StoredTrack>, b: map<int, StoredTrack>, c: map<int, StoredTrack>, hex: HexDigest)
    requires KeptOrVerified(a, b, hex) && KeptOrVerified(b, c, hex)
    ensures KeptOrVerified(a, c, hex)
  {
  }

  /**
   * Fail closed, and no rollback: every entry the walk leaves behind either
   * was there before, unchanged, or was written with a body whose digest
   * matches its recorded digest; no entry is ever removed.
   */
  lemma {:induction false} RunFailsClosed(tracks: map<int, StoredTrack>, ts: seq<ManifestTrack>, net: Remote, hex: HexDigest)
    ensures KeptOrVerified(tracks, Run(tracks, ts, net, hex).tracks, hex)
    decreases |ts|
  {
    if ts != [] {
      var init := ts[..|ts| - 1];
      RunFailsClosed(tracks, init, net, hex);
      var p := Run(tracks, init, net, hex);
      if p.error.None? {
        AdvanceFailsClosed(p, ts[|ts| - 1], net, hex);
        KeptOrVerifiedTransitive(tracks, p.tracks, Advance(p, ts[|ts| - 1], net, hex).tracks, hex);
      }
    }
  }

  /** Every track handled so far is fresh in the cache, provided the manifest is consistent. */
  lemma {:induction false} RunLeavesHandledFresh(tracks: map<int, StoredTrack>, ts: seq<ManifestTrack>, net: Remote, hex: HexDigest)
    requires Consistent(ts)
    ensures forall i :: 0 <= i < Run(tracks, ts, net, hex).done ==> Fresh(Run(tracks, ts, net, hex).tracks, ts[i])
    decreases |ts|
  {
    if ts != [] {
      var init := ts[..|ts| - 1];
      ConsistentPrefix(ts);
      RunLeavesHandledFresh(tracks, init, net, hex);
      var p := Run(tracks, init, net, hex);
      var t := ts[|ts| - 1];
      if p.error.None? {
        var q := Advance(p, t, net, hex);
        assert Run(tracks, ts, net, hex) == q;
        forall i | 0 <= i < q.done ensures Fresh(q.tracks, ts[i]) {
          if i < p.done {
            assert ts[i] == init[i];
            assert Fresh(p.tracks, ts[i]);
            assert ts[i].id == t.id ==> ts[i].sha256 == t.sha256;
            AdvanceKeepsFresh(p, t, ts[i], net, hex);
          } else {
            assert i == |init|;
            AdvanceFreshensItsTrack(p, t, net, hex);
          }
        }
      } else {
        assert Run(tracks, ts, net, hex) == p;
        forall i | 0 <= i < p.done ensures Fresh(p.tracks, ts[i]) {
          assert ts[i] == init[i];
        }
      }
    }
  }

  lemma ConsistentPrefix(ts: seq<ManifestTrack>)
    requires Consistent(ts) && ts != []
    ensures Consistent(ts[..|ts| - 1])
  {
    var init := ts[..|ts| - 1];
    forall i, j | 0 <= i < |init| && 0 <= j < |init| && init[i].id == init[j].id
      ensures init[i].sha256 == init[j].sha256
    {
      assert init[i] == ts[i] && init[j] == ts[j];
    }
  }

  /** A step for `t` keeps every track fresh that agrees with `t` on the digest of a shared id. */
  lemma AdvanceFreshensItsTrack(p: Progress, t: ManifestTrack, net: Remote, hex: HexDigest)
    requires Advance(p, t, net, hex).error.None?
    ensures Fresh(Advance(p, t, net, hex).tracks, t)
  {
  }

  lemma AdvanceKeepsFresh(p: Progress, t: ManifestTrack, u: ManifestTrack, net: Remote, hex: HexDigest)
    requires Fresh(p.tracks, u)
    requires u.id == t.id ==> u.sha256 == t.sha256
    ensures Fresh(Advance(p, t, net, hex).tracks, u)
  {
  }

  /** On success every manifest track has an entry whose recorded digest is the manifest's. */
  lemma DownloadSuccessCachesAll(tracks: map<int, StoredTrack>, ts: seq<ManifestTrack>, net: Remote, hex: HexDigest)
    requires Consistent(ts)
    requires Run(tracks, ts, net, hex).error.None?
    ensures forall i :: 0 <= i < |ts| ==> Fresh(Run(tracks, ts, net, hex).tracks, ts[i])
  {
    RunStopsAtFirstFailure(tracks, ts, net, hex);
    RunLeavesHandledFresh(tracks, ts, net, hex);
  }

  /** Over a cache that already holds every track fresh, the walk fetches nothing and changes nothing. */
  lemma {:induction false} RunOverFreshCacheIsIdle(tracks: map<int, StoredTrack>, ts: seq<ManifestTrack>, net: Remote, hex: HexDigest)
    requires forall i :: 0 <= i < |ts| ==> Fresh(tracks, ts[i])
    ensures Run(tracks, ts, net, hex) == Progress(tracks, |ts|, [], None)
    decreases |ts|
  {
    if ts != [] {
      var init := ts[..|ts| - 1];
      assert forall i :: 0 <= i < |init| ==> init[i] == ts[i];
      RunOverFreshCacheIsIdle(tracks, init, net, hex);
    }
  }

  /** A second download of an unchanged manifest after a successful one performs no fetch. */
  lemma SecondDownloadFetchesNothing(tracks: map<int, StoredTrack>, ts: seq<ManifestTrack>, net: Remote, hex: HexDigest)
    requires Consistent(ts)
    requires Run(tracks, ts, net, hex).error.None?
    ensures Run(Run(tracks, ts, net, hex).tracks, ts, net, hex).fetched == []
    ensures Run(Run(tracks, ts, net, hex).tracks, ts, net, hex).tracks == Run(tracks, ts, net, hex).tracks
  {
    DownloadSuccessCachesAll(tracks, ts, net, hex);
    RunOverFreshCacheIsIdle(Run(tracks, ts, net, hex).tracks, ts, net, hex);
  }

  /** A manifest track whose cached body still hashes to the manifest digest. */
  predicate Intact(tracks: map<int, StoredTrack>, t: ManifestTrack, hex: HexDigest) {
    t.id in tracks && hex(tracks[t.id].blob) == t.sha256
  }

  /**
   * The track `repairManifest` stops at (App.tsx:270-281): the first one that
   * is missing or whose re-hashed body differs from the manifest digest.
   */
  function FirstFault(tracks: map<int, StoredTrack>, ts: seq<ManifestTrack>, hex: HexDigest): (r: Option<nat>)
    ensures r.None? ==> forall i :: 0 <= i < |ts| ==> Intact(tracks, ts[i], hex)
    ensures r.Some? ==> r.value < |ts| && !Intact(tracks, ts[r.value], hex)
    ensures r.Some? ==> forall i :: 0 <= i < r.value ==> Intact(tracks, ts[i], hex)
  {
    if ts == [] then None
    else if !Intact(tracks, ts[0], hex) then Some(0)
    else match FirstFault(tracks, ts[1..], hex)
      case None => None
      case Some(k) => Some(k + 1)
  }

  /** Every entry of the cache verifies against its own recorded digest. */
  ghost predicate Honest(tracks: map<int, StoredTrack>, hex: HexDigest) {
    forall id :: id in tracks ==> Verified(tracks[id], hex)
  }

  /**
   * Repair converges when the faults are missing entries or entries recorded
   * under a stale digest: after a successful download the next repair check
   * finds nothing.
   */
  lemma RepairConvergesOnHonestCache(tracks: map<int, StoredTrack>, ts: seq<ManifestTrack>, net: Remote, hex: HexDigest)
    requires Consistent(ts) && Honest(tracks, hex)
    requires Run(tracks, ts, net, hex).error.None?
    ensures FirstFault(Run(tracks, ts, net, hex).tracks, ts, hex).None?
  {
    var after := Run(tracks, ts, net, hex).tracks;
    DownloadSuccessCachesAll(tracks, ts, net, hex);
    RunFailsClosed(tracks, ts, net, hex);
    forall i | 0 <= i < |ts| ensures Intact(after, ts[i], hex) {
      assert Fresh(after, ts[i]);
      var id := ts[i].id;
      assert Verified(after[id], hex);
    }
  }

  /**
   * But a body that was corrupted in place while its recorded digest stayed
   * right is never repaired: repair sees the fault, yet the download it
   * triggers trusts the recorded digest, skips the track and leaves the
   * cache as it was, so the next repair sees the same fault.
   */
  lemma CorruptBodyWithRightDigestSurvivesRepair(tracks: map<int, StoredTrack>, t: ManifestTrack, net: Remote, hex: HexDigest)
    requires t.id in tracks && tracks[t.id].sha256 == t.sha256
    requires !Verified(tracks[t.id], hex)
    ensures FirstFault(tracks, [t], hex) == Some(0)
    ensures Run(tracks, [t], net, hex) == Progress(tracks, 1, [], None)
  {
    assert [t][..0] == [];
  }

  /** A whole `downloadPlaylist` fails closed as well: a manifest that cannot be fetched changes nothing. */
  lemma DownloadFailsClosed(tracks: map<int, StoredTrack>, playlistId: int, net: Remote, hex: HexDigest)
    ensures KeptOrVerified(tracks, Download(tracks, playlistId, net, hex).tracks, hex)
  {
    if net.manifest(playlistId).Success? {
      RunFailsClosed(tracks, net.manifest(playlistId).value.tracks, net, hex);
    }
  }

  /**
   * The cache, the URLs fetched and the playlists downloaded by a repair
   * pass so far, and whether a manifest that could not be fetched ended it.
   */
  datatype RepairProgress = RepairProgress(tracks: map<int, StoredTrack>, fetched: seq<string>, downloads: seq<int>, stopped: bool)

  /**
   * One playlist of `repairDownloads` (App.tsx:262-265): fetch its manifest,
   * whose failure ends the pass; run `repairManifest` over it, which
   * downloads the playlist again exactly when the cache has a fault.
   */
  function RepairStep(p: RepairProgress, id: int, net: Remote, hex: HexDigest): RepairProgress {
    match net.manifest(id)
    case Failure(_) => p.(stopped := true)
    case Success(m) =>
      if FirstFault(p.tracks, m.tracks, hex).None? then p
      else
        var d := Download(p.tracks, m.playlistId, net, hex);
        RepairProgress(d.tracks, p.fetched + d.fetched, p.downloads + [m.playlistId], false)
  }

  /** The repair pass over the playlists in order; the first manifest that cannot be fetched ends it. */
  function Repair(tracks: map<int, StoredTrack>, ids: seq<int>, net: Remote, hex: HexDigest): (r: RepairProgress)
    ensures |r.downloads| <= |ids|
    decreases |ids|
  {
    if ids == [] then RepairProgress(tracks, [], [], false)
    else
      var p := Repair(tracks, ids[..|ids| - 1], net, hex);
      if p.stopped then p else RepairStep(p, ids[|ids| - 1], net, hex)
  }

  lemma RepairExtend(tracks: map<int, StoredTrack>, ids: seq<int>, i: nat, net: Remote, hex: HexDigest)
    requires i < |ids|
    ensures Repair(tracks, ids[..i + 1], net, hex) ==
              var p := Repair(tracks, ids[..i], net, hex);
              if p.stopped then p else RepairStep(p, ids[i], net, hex)
  {
    assert ids[..i + 1][..i] == ids[..i];
  }

  /** The pass runs to the end exactly when every manifest could be fetched. */
  lemma {:induction false} RepairCompletesIffAllFetched(tracks: map<int, StoredTrack>, ids: seq<int>, net: Remote, hex: HexDigest)
    ensures !Repair(tracks, ids, net, hex).stopped <==> forall k :: 0 <= k < |ids| ==> net.manifest(ids[k]).Success?
    decreases |ids|
  {
    if ids != [] {
      var init := ids[..|ids| - 1];
      RepairCompletesIffAllFetched(tracks, init, net, hex);
      assert forall k :: 0 <= k < |init| ==> init[k] == ids[k];
    }
  }

  /**
   * The first manifest that cannot be fetched ends the pass: the playlists
   * after it are never looked at, and the result is that of the playlists
   * before it.
   */
  lemma {:induction false} RepairEndsAtFirstFailedFetch(tracks: map<int, StoredTrack>, ids: seq<int>, k: nat, net: Remote, hex: HexDigest)
    requires k < |ids| && net.manifest(ids[k]).Failure?
    requires forall i :: 0 <= i < k ==> net.manifest(ids[i]).Success?
    ensures Repair(tracks, ids, net, hex) == Repair(tracks, ids[..k], net, hex).(stopped := true)
    decreases |ids|
  {
    var init := ids[..|ids| - 1];
    if k == |ids| - 1 {
      assert init == ids[..k];
      RepairCompletesIffAllFetched(tracks, init, net, hex);
    } else {
      assert forall i :: 0 <= i <= k ==> init[i] == ids[i];
      assert init[..k] == ids[..k];
      RepairEndsAtFirstFailedFetch(tracks, init, k, net, hex);
    }
  }

  /** Repair fails closed: no entry is removed, and every entry written has a body matching its recorded digest. */
  lemma {:induction false} RepairFailsClosed(tracks: map<int, StoredTrack>, ids: seq<int>, net: Remote, hex: HexDigest)
    ensures KeptOrVerified(tracks, Repair(tracks, ids, net, hex).tracks, hex)
    decreases |ids|
  {
    if ids != [] {
      var init := ids[..|ids| - 1];
      RepairFailsClosed(tracks, init, net, hex);
      var p := Repair(tracks, init, net, hex);
      var id := ids[|ids| - 1];
      if !p.stopped && net.manifest(id).Success? {
        var m := net.manifest(id).value;
        if FirstFault(p.tracks, m.tracks, hex).Some? {
          DownloadFailsClosed(p.tracks, m.playlistId, net, hex);
          KeptOrVerifiedTransitive(tracks, p.tracks, Download(p.tracks, m.playlistId, net, hex).tracks, hex);
        }
      }
    }
  }

  /** A cache in which every playlist's tracks are intact is left alone: nothing is fetched or downloaded. */
  lemma {:induction false} RepairIdleOnIntactCache(tracks: map<int, StoredTrack>, ids: seq<int>, net: Remote, hex: HexDigest)
    requires forall k :: 0 <= k < |ids| && net.manifest(ids[k]).Success? ==>
               FirstFault(tracks, net.manifest(ids[k]).value.tracks, hex).None?
    ensures var r := Repair(tracks, ids, net, hex);
            r.tracks == tracks && r.fetched == [] && r.downloads == []
    decreases |ids|
  {
    if ids != [] {
      var init := ids[..|ids| - 1];
      assert forall k :: 0 <= k < |init| ==> init[k] == ids[k];
      RepairIdleOnIntactCache(tracks, init, net, hex);
    }
  }

  /** The manifest endpoint answers each of these playlists with its own id, as the server's does. */
  ghost predicate AnswersOwnId(net: Remote, ids: seq<int>) {
    forall k :: 0 <= k < |ids| && net.manifest(ids[k]).Success? ==> net.manifest(ids[k]).value.playlistId == ids[k]
  }

  /**
   * With manifests that carry their own playlist id, every playlist the pass
   * downloads is one of the listed playlists, and a list without repeats
   * gives at most one download per playlist.
   */
  lemma {:induction false} RepairDownloadsListedPlaylistsOnce(tracks: map<int, StoredTrack>, ids: seq<int>, net: Remote, hex: HexDigest)
    requires AnswersOwnId(net, ids)
    ensures forall j :: 0 <= j < |Repair(tracks, ids, net, hex).downloads| ==> Repair(tracks, ids, net, hex).downloads[j] in ids
    ensures Distinct(ids) ==> Distinct(Repair(tracks, ids, net, hex).downloads)
    decreases |ids|
  {
    if ids != [] {
      var init := ids[..|ids| - 1];
      assert forall k :: 0 <= k < |init| ==> init[k] == ids[k];
      RepairDownloadsListedPlaylistsOnce(tracks, init, net, hex);
      var p := Repair(tracks, init, net, hex);
      var id := ids[|ids| - 1];
      assert forall x :: x in init ==> x in ids;
      if Distinct(ids) {
        assert id !in init;
        assert Distinct(p.downloads);
      }
    }
  }
}
