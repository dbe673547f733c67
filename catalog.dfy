/**
 * The catalog, playlist and sync endpoints (apps/api/app/api/routes.py)
 * over the tables of apps/api/app/models: tracks, playlists, playlist items
 * and the single playback-state row. The tables are fields of `CatalogDb`;
 * the media directory is a set of the paths that exist in it, and the clock
 * is a parameter.
 */
module Catalog {
  import opened Wrappers
  import opened Numerals
  import opened Manifests

  /** A row of `tracks`; `path` is relative to the media root. */
  datatype Track = Track(
    id: int,
    title: string,
    artist: Option<string>,
    album: Option<string>,
    durationMs: Option<int>,
    mime: string,
    path: string,
    sha256: string,
    sizeBytes: int)

  /** A row of `playlists`. Timestamps are opaque integers. */
  datatype Playlist = Playlist(id: int, name: string, createdAt: int, updatedAt: int)

  /** A row of `playlist_items`: one track at one position of one playlist. */
  datatype Item = Item(id: int, playlistId: int, trackId: int, position: int)

  /** The body of `POST /sync/playback`, also its response. */
  datatype PlaybackSync = PlaybackSync(
    lastTrackId: Option<int>,
    positionMs: Option<int>,
    queue: Option<seq<int>>,
    shuffle: Option<bool>,
    repeat: Option<string>)

  /** The row of `playback_state`: two columns copied out, the whole body as JSON. */
  datatype PlaybackRow = PlaybackRow(id: int, lastTrackId: Option<int>, positionMs: Option<int>, queueJson: PlaybackSync, updatedAt: int)

  /** What `FileResponse` serves: a file of the media directory with its type. */
  datatype FileResponse = FileResponse(path: string, mime: string)

  /** The single playback row's key. */
  const PlaybackRowId: int := 1

  /** `playlist.items`: ordered by position. */
  ghost predicate SortedByPosition(s: seq<Item>) {
    forall i, j :: 0 <= i < j < |s| ==> s[i].position <= s[j].position
  }

  /** `x` put after every item of `s` that does not come after it. */
  function Insert(x: Item, s: seq<Item>): (r: seq<Item>)
    requires SortedByPosition(s)
    ensures SortedByPosition(r)
    ensures multiset(r) == multiset(s) + multiset{x}
    ensures |r| == |s| + 1 && (r[0] == x || (s != [] && r[0] == s[0]))
  {
    if s == [] then [x]
    else if x.position < s[0].position then
      ConsSorted(x, s);
      [x] + s
    else
      var rest := Insert(x, s[1..]);
      assert multiset(s) == multiset{s[0]} + multiset(s[1..]) by { assert s == [s[0]] + s[1..]; }
      assert s[0].position <= rest[0].position by {
        if |s| > 1 && rest[0] == s[1..][0] {
          assert s[1..][0] == s[1];
        }
      }
      ConsSorted(s[0], rest);
      [s[0]] + rest
  }

  /** An item no later than the head of a sorted list can go in front of it. */
  lemma ConsSorted(y: Item, t: seq<Item>)
    requires SortedByPosition(t)
    requires t != [] ==> y.position <= t[0].position
    ensures SortedByPosition([y] + t)
  {
    var r := [y] + t;
    forall i, j | 0 <= i < j < |r|
      ensures r[i].position <= r[j].position
    {
      if i == 0 {
        assert r[j] == t[j - 1];
        if j > 1 {
          assert t[0].position <= t[j - 1].position;
        }
      } else {
        assert r[i] == t[i - 1] && r[j] == t[j - 1];
      }
    }
  }

  /** The items of `s` ordered by position, a stable insertion sort. */
  function ByPosition(s: seq<Item>): (r: seq<Item>)
    ensures SortedByPosition(r)
    ensures multiset(r) == multiset(s)
  {
    if s == [] then []
    else
      assert s == s[..|s| - 1] + [s[|s| - 1]];
      Insert(s[|s| - 1], ByPosition(s[..|s| - 1]))
  }

  /** The rows of `items` that belong to a playlist, in table order. */
  function ItemsOf(items: seq<Item>, playlistId: int): (r: seq<Item>)
    ensures forall x :: x in r <==> x in items && x.playlistId == playlistId
    ensures forall x :: multiset(r)[x] == if x.playlistId == playlistId then multiset(items)[x] else 0
  {
    if items == [] then []
    else
      var init := items[..|items| - 1];
      var last := items[|items| - 1];
      assert items == init + [last];
      if last.playlistId == playlistId then ItemsOf(init, playlistId) + [last] else ItemsOf(init, playlistId)
  }

  /** Ids strictly increase along `s`. */
  ghost predicate IdsIncrease(s: seq<Item>) {
    forall i, j :: 0 <= i < j < |s| ==> s[i].id < s[j].id
  }

  /** Appending a row with a larger id than every earlier one keeps ids increasing. */
  lemma AppendLargerId(s: seq<Item>, y: Item)
    requires IdsIncrease(s)
    requires forall k :: 0 <= k < |s| ==> s[k].id < y.id
    ensures IdsIncrease(s + [y])
  {
    var r := s + [y];
    forall i, j | 0 <= i < j < |r|
      ensures r[i].id < r[j].id
    {
      assert r[i] == s[i];
      if j < |s| {
        assert r[j] == s[j];
      }
    }
  }

  /** Every row before the last has a smaller id than the last. */
  lemma InitBelowLast(items: seq<Item>)
    requires items != [] && IdsIncrease(items)
    ensures forall x :: x in items[..|items| - 1] ==> x.id < items[|items| - 1].id
  {
    forall x | x in items[..|items| - 1]
      ensures x.id < items[|items| - 1].id
    {
      var i :| 0 <= i < |items| - 1 && items[..|items| - 1][i] == x;
    }
  }

  /** Rows stored in increasing id order come out of `ItemsOf` in increasing id order. */
  lemma {:induction false} ItemsOfKeepsTableOrder(items: seq<Item>, playlistId: int)
    requires IdsIncrease(items)
    ensures IdsIncrease(ItemsOf(items, playlistId))
  {
    if items != [] {
      var init := items[..|items| - 1];
      var last := items[|items| - 1];
      assert IdsIncrease(init);
      ItemsOfKeepsTableOrder(init, playlistId);
      var rest := ItemsOf(init, playlistId);
      assert ItemsOf(items, playlistId) == if last.playlistId == playlistId then rest + [last] else rest;
      if last.playlistId == playlistId {
        InitBelowLast(items);
        forall k | 0 <= k < |rest|
          ensures rest[k].id < last.id
        {
          assert rest[k] in init;
        }
        AppendLargerId(rest, last);
      }
    }
  }

  /** `f"{settings.base_url}/api/tracks/{track.id}/download"`. */
  function DownloadUrl(baseUrl: string, trackId: int): string {
    baseUrl + "/api/tracks/" + DecimalString(trackId) + "/download"
  }

  /** The track id the download route reads out of a URL under `baseUrl`, if it has that shape. */
  function DownloadRouteId(baseUrl: string, url: string): Option<int> {
    var prefix := baseUrl + "/api/tracks/";
    var suffix := "/download";
    if |url| >= |prefix| + |suffix| + 1 && url[..|prefix|] == prefix && url[|url| - |suffix|..] == suffix then
      var segment := url[|prefix|..|url| - |suffix|];
      var id: int := if segment[0] == '-' then -(ValueOf(segment[1..], 10) as int) else ValueOf(segment, 10) as int;
      Some(id)
    else None
  }

  /** A manifest's download URL routes back to the track it was made for. */
  lemma DownloadUrlRoutesToTrack(baseUrl: string, trackId: int)
    ensures DownloadRouteId(baseUrl, DownloadUrl(baseUrl, trackId)) == Some(trackId)
  {
    var prefix := baseUrl + "/api/tracks/";
    var digits := DecimalString(trackId);
    DecimalStringValue(trackId);
    var url := DownloadUrl(baseUrl, trackId);
    assert url == prefix + digits + "/download";
    assert url[..|prefix|] == prefix;
    assert url[|url| - 9..] == "/download";
    assert url[|prefix|..|url| - 9] == digits;
  }

  /** One manifest entry: the track's catalog fields and its download URL. */
  function EntryFor(t: Track, baseUrl: string): ManifestTrack {
    ManifestTrack(t.id, t.title, t.artist, t.album, t.durationMs, t.mime, t.sha256, t.sizeBytes, DownloadUrl(baseUrl, t.id))
  }

  class CatalogDb {
    var tracks: map<int, Track>
    var playlists: map<int, Playlist>
    /** `playlist_items` in id order. */
    var items: seq<Item>
    var nextItemId: int
    var playback: Option<PlaybackRow>
    /** `settings.base_url`. */
    const baseUrl: string

    ghost predicate Valid()
      reads this
    {
      && (forall id :: id in tracks ==> tracks[id].id == id)
      && (forall id :: id in playlists ==> playlists[id].id == id)
      && (forall i :: 0 <= i < |items| ==>
            items[i].playlistId in playlists && items[i].trackId in tracks && items[i].id < nextItemId)
      && (forall i, j :: 0 <= i < j < |items| ==> items[i].id < items[j].id)
      && (playback.Some? ==> playback.value.id == PlaybackRowId)
    }

    constructor (baseUrl: string, tracks: map<int, Track>)
      requires forall id :: id in tracks ==> tracks[id].id == id
      ensures Valid()
      ensures this.baseUrl == baseUrl && this.tracks == tracks
      ensures playlists == map[] && items == [] && playback == None
    {
      this.baseUrl := baseUrl;
      this.tracks := tracks;
      playlists := map[];
      items := [];
      nextItemId := 1;
      playback := None;
    }

    /** `get_track`: the track, or 404 "Track not found". */
    function GetTrack(trackId: int): (r: Result<Track, HttpError>)
      reads this
      requires Valid()
      ensures r.Success? <==> trackId in tracks
      ensures r.Success? ==> r.value == tracks[trackId] && r.value.id == trackId
      ensures r.Failure? ==> r.error == HttpError(404, "Track not found")
    {
      if trackId in tracks then Success(tracks[trackId]) else Failure(HttpError(404, "Track not found"))
    }

    /**
     * `download_track`: 404 "Track not found" for an unknown track, 404
     * "File missing" when its file is not in the media directory, else the
     * file with the track's type.
     */
    function DownloadTrack(trackId: int, mediaFiles: set<string>): (r: Result<FileResponse, HttpError>)
      reads this
      requires Valid()
      ensures r.Success? <==> trackId in tracks && tracks[trackId].path in mediaFiles
      ensures r.Success? ==> r.value == FileResponse(tracks[trackId].path, tracks[trackId].mime)
      ensures trackId !in tracks ==> r == Failure(HttpError(404, "Track not found"))
      ensures trackId in tracks && tracks[trackId].path !in mediaFiles ==> r == Failure(HttpError(404, "File missing"))
    {
      match GetTrack(trackId)
      case Failure(e) => Failure(e)
      case Success(t) =>
        if t.path !in mediaFiles then Failure(HttpError(404, "File missing"))
        else Success(FileResponse(t.path, t.mime))
    }

    /** The playlist's items as `playlist.items` loads them. */
    function PlaylistItems(playlistId: int): (r: seq<Item>)
      reads this
      ensures SortedByPosition(r)
      ensures multiset(r) == multiset(ItemsOf(items, playlistId))
    {
      ByPosition(ItemsOf(items, playlistId))
    }

    /**
     * `add_playlist_item`: 404 for an unknown playlist, then for an unknown
     * track; otherwise one item is added at the requested position (any
     * integer, duplicates allowed) and the playlist's `updated_at` is set.
     */
    method AddPlaylistItem(playlistId: int, trackId: int, position: int, now: int) returns (r: Result<Playlist, HttpError>)
      requires Valid()
      modifies this`items, this`nextItemId, this`playlists
      ensures Valid()
      ensures playlistId !in old(playlists) ==> r == Failure(HttpError(404, "Playlist not found"))
      ensures playlistId in old(playlists) && trackId !in tracks ==> r == Failure(HttpError(404, "Track not found"))
      ensures r.Failure? ==> items == old(items) && playlists == old(playlists)
      ensures r.Success? <==> playlistId in old(playlists) && trackId in tracks
      ensures r.Success? ==>
                && items == old(items) + [Item(old(nextItemId), playlistId, trackId, position)]
                && r.value == old(playlists)[playlistId].(updatedAt := now)
                && playlists == old(playlists)[playlistId := r.value]
    {
      if playlistId !in playlists {
        return Failure(HttpError(404, "Playlist not found"));
      }
      if trackId !in tracks {
        return Failure(HttpError(404, "Track not found"));
      }
      var item := Item(nextItemId, playlistId, trackId, position);
      items := items + [item];
      nextItemId := nextItemId + 1;
      var playlist := playlists[playlistId].(updatedAt := now);
      playlists := playlists[playlistId := playlist];
      r := Success(playlist);
    }

    /** `db.get(PlaylistItem, item_id)`: the position of the item with that id, if any. */
    function FindItem(itemId: int): (k: Option<nat>)
      reads this
      requires Valid()
      ensures k.None? <==> forall i :: 0 <= i < |items| ==> items[i].id != itemId
      ensures k.Some? ==> k.value < |items| && items[k.value].id == itemId
    {
      FindItemIn(items, itemId)
    }

    /**
     * `delete_playlist_item`: 404 "Item not found", and nothing deleted,
     * when no item has that id or it belongs to another playlist; otherwise
     * exactly that item is removed and the playlist's `updated_at` is set.
     */
    method DeletePlaylistItem(playlistId: int, itemId: int, now: int) returns (r: Result<bool, HttpError>)
      requires Valid()
      modifies this`items, this`playlists
      ensures Valid()
      ensures var k := old(FindItem(itemId));
              r.Success? <==> k.Some? && old(items)[k.value].playlistId == playlistId
      ensures r.Failure? ==> r.error == HttpError(404, "Item not found") && items == old(items) && playlists == old(playlists)
      ensures r.Success? ==>
                var k := old(FindItem(itemId)).value;
                && r.value
                && items == old(items)[..k] + old(items)[k + 1..]
                && playlists == old(playlists)[playlistId := old(playlists)[playlistId].(updatedAt := now)]
      ensures r.Success? ==> forall i :: 0 <= i < |items| ==> items[i].id != itemId
    {
      var k := FindItem(itemId);
      if k.None? || items[k.value].playlistId != playlistId {
        return Failure(HttpError(404, "Item not found"));
      }
      var i := k.value;
      RemovalKeepsItemsValid(items, i, playlists, tracks, nextItemId);
      items := items[..i] + items[i + 1..];
      if playlistId in playlists {
        playlists := playlists[playlistId := playlists[playlistId].(updatedAt := now)];
      }
      r := Success(true);
    }

    /**
     * `playlist_manifest`: 404 for an unknown playlist; otherwise the
     * playlist's id, name and `updated_at`, and one entry per item in
     * position order carrying the item's track.
     */
    method PlaylistManifest(playlistId: int) returns (r: Result<Manifest, HttpError>)
      requires Valid()
      ensures r.Failure? <==> playlistId !in playlists
      ensures r.Failure? ==> r.error == HttpError(404, "Playlist not found")
      ensures r.Success? ==>
                var p := playlists[playlistId];
                var ordered := PlaylistItems(playlistId);
                && r.value.playlistId == p.id && r.value.name == p.name && r.value.updatedAt == p.updatedAt
                && |r.value.tracks| == |ordered|
                && forall i :: 0 <= i < |ordered| ==>
                     ordered[i].trackId in tracks && r.value.tracks[i] == EntryFor(tracks[ordered[i].trackId], baseUrl)
      ensures r.Success? ==> Consistent(r.value.tracks)
      ensures r.Success? ==> forall i :: 0 <= i < |r.value.tracks| ==> TrackIds(r.value.tracks)[i] == PlaylistItems(playlistId)[i].trackId
    {
      if playlistId !in playlists {
        return Failure(HttpError(404, "Playlist not found"));
      }
      var playlist := playlists[playlistId];
      var ordered := PlaylistItems(playlistId);
      assert forall k :: 0 <= k < |ordered| ==> ordered[k].trackId in tracks by {
        forall k | 0 <= k < |ordered|
          ensures ordered[k].trackId in tracks
        {
          assert ordered[k] in multiset(ItemsOf(items, playlistId));
          var x := ordered[k];
          assert x in items;
        }
      }
      var entries := ManifestEntries(tracks, ordered, baseUrl);
      EntriesFromTableAreConsistent(tracks, ordered, baseUrl, entries);
      r := Success(Manifest(playlist.id, playlist.name, playlist.updatedAt, entries));
    }

    /**
     * `sync_playback`: the single row with id 1 is created if missing and
     * overwritten with the body otherwise; the body is echoed back.
     */
    method SyncPlayback(payload: PlaybackSync, now: int) returns (echo: PlaybackSync)
      requires Valid()
      modifies this`playback
      ensures Valid()
      ensures echo == payload
      ensures playback == Some(PlaybackRow(PlaybackRowId, payload.lastTrackId, payload.positionMs, payload, now))
    {
      playback := Some(PlaybackRow(PlaybackRowId, payload.lastTrackId, payload.positionMs, payload, now));
      echo := payload;
    }
  }

  /** The loop of `playlist_manifest`: one entry per ordered item, built from the item's track. */
  method ManifestEntries(tracks: map<int, Track>, ordered: seq<Item>, baseUrl: string) returns (entries: seq<ManifestTrack>)
    requires forall k :: 0 <= k < |ordered| ==> ordered[k].trackId in tracks
    ensures |entries| == |ordered|
    ensures forall k :: 0 <= k < |ordered| ==> entries[k] == EntryFor(tracks[ordered[k].trackId], baseUrl)
  {
    entries := [];
    var i := 0;
    while i < |ordered|
      invariant 0 <= i <= |ordered|
      invariant |entries| == i
      invariant forall k :: 0 <= k < i ==> entries[k] == EntryFor(tracks[ordered[k].trackId], baseUrl)
    {
      var entry := EntryFor(tracks[ordered[i].trackId], baseUrl);
      assert forall k :: 0 <= k < i ==> (entries + [entry])[k] == entries[k];
      entries := entries + [entry];
      i := i + 1;
    }
  }

  /** Removing one item keeps the items' references, ids and order, and removes its id. */
  lemma RemovalKeepsItemsValid(items: seq<Item>, k: nat, playlists: map<int, Playlist>, tracks: map<int, Track>, nextItemId: int)
    requires k < |items|
    requires forall i :: 0 <= i < |items| ==>
               items[i].playlistId in playlists && items[i].trackId in tracks && items[i].id < nextItemId
    requires forall i, j :: 0 <= i < j < |items| ==> items[i].id < items[j].id
    ensures var rest := items[..k] + items[k + 1..];
            && (forall i :: 0 <= i < |rest| ==>
                  rest[i].playlistId in playlists && rest[i].trackId in tracks && rest[i].id < nextItemId)
            && (forall i, j :: 0 <= i < j < |rest| ==> rest[i].id < rest[j].id)
            && (forall i :: 0 <= i < |rest| ==> rest[i].id != items[k].id)
  {
    var rest := items[..k] + items[k + 1..];
    assert forall j :: 0 <= j < |rest| ==> rest[j] == if j < k then items[j] else items[j + 1];
  }

  function FindItemIn(items: seq<Item>, itemId: int): (k: Option<nat>)
    ensures k.None? <==> forall i :: 0 <= i < |items| ==> items[i].id != itemId
    ensures k.Some? ==> k.value < |items| && items[k.value].id == itemId
  {
    if items == [] then None
    else if items[|items| - 1].id == itemId then Some(|items| - 1)
    else FindItemIn(items[..|items| - 1], itemId)
  }

  /** Entries built from the track table agree on each track's digest, as the client's cache requires. */
  lemma EntriesFromTableAreConsistent(tracks: map<int, Track>, ordered: seq<Item>, baseUrl: string, entries: seq<ManifestTrack>)
    requires forall id :: id in tracks ==> tracks[id].id == id
    requires |entries| == |ordered|
    requires forall i :: 0 <= i < |ordered| ==> ordered[i].trackId in tracks && entries[i] == EntryFor(tracks[ordered[i].trackId], baseUrl)
    ensures Consistent(entries)
    ensures forall i :: 0 <= i < |entries| ==> TrackIds(entries)[i] == ordered[i].trackId
  {
  }
}
