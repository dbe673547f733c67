/**
 * The browser's local store (apps/web/src/lib/db.ts): three independent
 * IndexedDB object stores, `tracks` and `playlists` keyed by the record's
 * `id`, and `playback_state` keyed by `key`, which is always "main". Each is
 * a map field of `Store`; `put` is insert-or-replace, `get` a lookup and
 * `delete` a removal. The ghost `log` records every write in order, so
 * callers can state what was written first.
 */
module ContentStore {
  import opened Wrappers
  import opened Crypto

  /** A cached track body with the digest it was verified against. */
  datatype StoredTrack = StoredTrack(id: int, blob: seq<byte>, mime: string, sha256: string, size: int)

  /** A playlist snapshot: enough to rebuild the queue offline. Timestamps are opaque values here. */
  datatype StoredPlaylist = StoredPlaylist(id: int, name: string, trackIds: seq<int>, updatedAt: int)

  /** The persisted playback record; every field may be missing or null in what is read back. */
  datatype PlaybackState = PlaybackState(
    lastTrackId: Option<int>,
    positionMs: Option<int>,
    queue: Option<seq<int>>,
    shuffle: Option<bool>,
    repeat: Option<string>)

  /** The one key `savePlaybackState` and `getPlaybackState` use. */
  const MainKey: string := "main"

  datatype StoreWrite =
    | PutTrack(track: StoredTrack)
    | RemoveTrack(trackId: int)
    | PutPlaylist(playlist: StoredPlaylist)
    | PutPlayback(state: PlaybackState)

  class Store {
    var tracks: map<int, StoredTrack>
    var playlists: map<int, StoredPlaylist>
    var playbackState: map<string, PlaybackState>
    ghost var log: seq<StoreWrite>

    /** Records sit under their own key path, and the playback store holds at most the "main" record. */
    ghost predicate Valid()
      reads this
    {
      && (forall id :: id in tracks ==> tracks[id].id == id)
      && (forall id :: id in playlists ==> playlists[id].id == id)
      && playbackState.Keys <= {MainKey}
    }

    /** An empty database, as `openDB` creates it on first use. */
    constructor ()
      ensures Valid()
      ensures tracks == map[] && playlists == map[] && playbackState == map[] && log == []
    {
      tracks, playlists, playbackState := map[], map[], map[];
      log := [];
    }

    /** `getTrack(id)`. */
    method GetTrack(id: int) returns (r: Option<StoredTrack>)
      requires Valid()
      ensures r.Some? <==> id in tracks
      ensures r.Some? ==> r.value == tracks[id] && r.value.id == id
    {
      r := if id in tracks then Some(tracks[id]) else None;
    }

    /** `saveTrack(t)`: insert or replace under `t.id`; the other stores are untouched. */
    method SaveTrack(t: StoredTrack)
      requires Valid()
      modifies this
      ensures Valid()
      ensures tracks == old(tracks)[t.id := t]
      ensures playlists == old(playlists) && playbackState == old(playbackState)
      ensures log == old(log) + [PutTrack(t)]
    {
      tracks := tracks[t.id := t];
      log := log + [PutTrack(t)];
    }

    /** `deleteTrack(id)`: the record under `id` is gone, every other one is kept. */
    method DeleteTrack(id: int)
      requires Valid()
      modifies this
      ensures Valid()
      ensures id !in tracks
      ensures forall k :: k != id ==> (k in tracks <==> k in old(tracks))
      ensures forall k :: k in tracks ==> tracks[k] == old(tracks)[k]
      ensures playlists == old(playlists) && playbackState == old(playbackState)
      ensures log == old(log) + [RemoveTrack(id)]
    {
      tracks := tracks - {id};
      log := log + [RemoveTrack(id)];
    }

    /**
     * `isTrackDownloaded(id)`: `Boolean(track?.blob)`. A stored `Blob` is an
     * object and therefore always truthy, so this is "a record exists".
     */
    method IsTrackDownloaded(id: int) returns (downloaded: bool)
      requires Valid()
      ensures downloaded <==> id in tracks
    {
      var t := GetTrack(id);
      downloaded := t.Some?;
    }

    /** `savePlaylist(p)`: insert or replace under `p.id`. */
    method SavePlaylist(p: StoredPlaylist)
      requires Valid()
      modifies this
      ensures Valid()
      ensures playlists == old(playlists)[p.id := p]
      ensures tracks == old(tracks) && playbackState == old(playbackState)
      ensures log == old(log) + [PutPlaylist(p)]
    {
      playlists := playlists[p.id := p];
      log := log + [PutPlaylist(p)];
    }

    /** `getPlaylist(id)`. */
    method GetPlaylist(id: int) returns (r: Option<StoredPlaylist>)
      requires Valid()
      ensures r.Some? <==> id in playlists
      ensures r.Some? ==> r.value == playlists[id] && r.value.id == id
    {
      r := if id in playlists then Some(playlists[id]) else None;
    }

    /** `savePlaybackState(s)`: always written under "main", replacing the previous record. */
    method SavePlaybackState(s: PlaybackState)
      requires Valid()
      modifies this
      ensures Valid()
      ensures playbackState == map[MainKey := s]
      ensures tracks == old(tracks) && playlists == old(playlists)
      ensures log == old(log) + [PutPlayback(s)]
    {
      playbackState := playbackState[MainKey := s];
      log := log + [PutPlayback(s)];
    }

    /** `getPlaybackState()`: the record under "main", if any. */
    method GetPlaybackState() returns (r: Option<PlaybackState>)
      requires Valid()
      ensures r.Some? <==> playbackState != map[]
      ensures r.Some? ==> MainKey in playbackState && r.value == playbackState[MainKey]
    {
      r := if MainKey in playbackState then Some(playbackState[MainKey]) else None;
    }
  }

  /** Put is idempotent, put then get round-trips, and the last playback write wins. */
  method StoreLaws(s: Store, t: StoredTrack, p: StoredPlaylist, a: PlaybackState, b: PlaybackState)
    requires s.Valid()
    modifies s
  {
    s.SaveTrack(t);
    var once := s.tracks;
    s.SaveTrack(t);
    assert s.tracks == once;
    var got := s.GetTrack(t.id);
    assert got == Some(t);

    s.SavePlaylist(p);
    var q := s.GetPlaylist(p.id);
    assert q == Some(p) && q.value.trackIds == p.trackIds;
    assert s.tracks == once;

    s.SavePlaybackState(a);
    s.SavePlaybackState(b);
    assert MainKey in s.playbackState;
    var r := s.GetPlaybackState();
    assert r == Some(b);
    assert s.playlists[p.id] == p;

    s.DeleteTrack(t.id);
    var gone := s.GetTrack(t.id);
    assert gone == None;
  }
}
