/**
 The local snapshot store: one cached track list per playlist name. A name
 with no snapshot reads as the empty list.
 */
module TrackStore {
  import opened Tracks

  type Cache = map<string, seq<Track>>

  /** `load_tracks_file`: the stored snapshot, or `[]` when there is none. */
  function Load(cache: Cache, name: string): (ts: seq<Track>)
    ensures name in cache ==> ts == cache[name]
    ensures name !in cache ==> ts == []
  {
    if name in cache then cache[name] else []
  }

  /** `save_tracks_file`: overwrites the snapshot of `name`. */
  function Save(cache: Cache, name: string, tracks: seq<Track>): (c: Cache)
    ensures Load(c, name) == tracks
    ensures forall other :: other != name ==> Load(c, other) == Load(cache, other)
    ensures c.Keys == cache.Keys + {name}
  {
    cache[name := tracks]
  }
}
