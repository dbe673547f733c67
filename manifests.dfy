/**
 * The playlist manifest the API serves (`PlaylistManifest` and
 * `PlaylistManifestTrack` in apps/api/app/schemas/playlist.py) and the web
 * client consumes (`PlaylistManifest` in apps/web/src/lib/api.ts): the
 * authoritative list of what should be cached for one playlist.
 */
module Manifests {
  import opened Wrappers

  /** One manifest entry: the catalog's track fields plus where to download it. */
  datatype ManifestTrack = ManifestTrack(
    id: int,
    title: string,
    artist: Option<string>,
    album: Option<string>,
    durationMs: Option<int>,
    mime: string,
    sha256: string,
    sizeBytes: int,
    downloadUrl: string)

  /** Timestamps are opaque values that are only copied. */
  datatype Manifest = Manifest(playlistId: int, name: string, updatedAt: int, tracks: seq<ManifestTrack>)

  /** The track ids of a manifest, in manifest order (`manifest.tracks.map((track) => track.id)`). */
  function TrackIds(ts: seq<ManifestTrack>): (ids: seq<int>)
    ensures |ids| == |ts|
    ensures forall i :: 0 <= i < |ts| ==> ids[i] == ts[i].id
  {
    if ts == [] then [] else [ts[0].id] + TrackIds(ts[1..])
  }

  /** No two entries of a manifest disagree about the digest of one track id. */
  ghost predicate Consistent(ts: seq<ManifestTrack>) {
    forall i, j :: 0 <= i < |ts| && 0 <= j < |ts| && ts[i].id == ts[j].id ==> ts[i].sha256 == ts[j].sha256
  }
}
