/**
 `update_local_cache`: re-fetch a playlist's tracks, and overwrite its
 snapshot, exactly when the snapshot's length differs from the remote total.
 */
module CacheSync {
  import opened Tracks
  import opened TrackStore
  import opened Paging

  /** The cache after the pass, and the ids of the playlists fetched, in order. */
  datatype SyncResult = SyncResult(cache: Cache, fetched: seq<string>)

  /** Size is the only staleness signal: a same-length change goes unseen. */
  predicate IsStale(cache: Cache, p: Playlist): (b: bool)
    ensures p.name !in cache ==> (b <==> p.total != 0)
    ensures p.name in cache ==> (b <==> |cache[p.name]| != p.total)
  {
    |Load(cache, p.name)| != p.total
  }

  /** One iteration of the loop over the playlists. */
  function SyncPlaylist(remote: string -> string -> nat -> seq<PlaylistItem>, user: string,
                        cache: Cache, p: Playlist): (r: SyncResult)
    ensures !IsStale(cache, p) ==> r.cache == cache && r.fetched == []
    ensures IsStale(cache, p) ==>
              Load(r.cache, p.name) == PlaylistTracks(remote, user, p.id) && r.fetched == [p.id]
    ensures forall n :: n != p.name ==> Load(r.cache, n) == Load(cache, n)
    ensures r.cache.Keys <= cache.Keys + {p.name}
  {
    if !IsStale(cache, p) then SyncResult(cache, [])
    else SyncResult(Save(cache, p.name, PlaylistTracks(remote, user, p.id)), [p.id])
  }

  function Names(ps: seq<Playlist>): set<string> {
    set p | p in ps :: p.name
  }

  /** The whole pass, playlist by playlist in list order; each playlist is
      judged against the cache as the earlier iterations left it. */
  function UpdateLocalCache(remote: string -> string -> nat -> seq<PlaylistItem>, user: string,
                            cache: Cache, ps: seq<Playlist>): (r: SyncResult)
    ensures forall n :: n !in Names(ps) ==> Load(r.cache, n) == Load(cache, n)
    ensures r.cache.Keys <= cache.Keys + Names(ps)
    ensures |r.fetched| <= |ps|
    ensures forall id :: id in r.fetched ==> exists p :: p in ps && p.id == id
    decreases |ps|
  {
    if ps == [] then SyncResult(cache, [])
    else
      var first := SyncPlaylist(remote, user, cache, ps[0]);
      var rest := UpdateLocalCache(remote, user, first.cache, ps[1..]);
      assert forall p :: p in ps[1..] ==> p in ps;
      assert Names(ps) == {ps[0].name} + Names(ps[1..]);
      SyncResult(rest.cache, first.fetched + rest.fetched)
  }

  predicate DistinctNames(ps: seq<Playlist>) {
    forall i, j :: 0 <= i < j < |ps| ==> ps[i].name != ps[j].name
  }

  /** The ids of the playlists whose snapshot in `cache` is stale, in order. */
  function StaleIds(cache: Cache, ps: seq<Playlist>): seq<string> {
    if ps == [] then []
    else (if IsStale(cache, ps[0]) then [ps[0].id] else []) + StaleIds(cache, ps[1..])
  }

  /** With distinct names, every playlist is judged against the initial
      cache: a stale one gets the fetched list, a fresh one keeps its
      snapshot untouched, and exactly the stale ones are fetched. */
  lemma {:induction false} UpdateDistinctNames(remote: string -> string -> nat -> seq<PlaylistItem>,
                                               user: string, cache: Cache, ps: seq<Playlist>)
    requires DistinctNames(ps)
    ensures var r := UpdateLocalCache(remote, user, cache, ps);
            && r.fetched == StaleIds(cache, ps)
            && forall p :: p in ps ==>
                 Load(r.cache, p.name) ==
                   (if IsStale(cache, p) then PlaylistTracks(remote, user, p.id) else Load(cache, p.name))
    decreases |ps|
  {
    if ps != [] {
      var first := SyncPlaylist(remote, user, cache, ps[0]);
      var tail := ps[1..];
      assert DistinctNames(tail);
      UpdateDistinctNames(remote, user, first.cache, tail);
      assert forall q :: q in tail ==> q.name != ps[0].name;
      assert StaleIds(first.cache, tail) == StaleIds(cache, tail) by {
        StaleIdsFrame(cache, first.cache, tail);
      }
    }
  }

  /** Stale ids depend only on the snapshots of the listed names. */
  lemma {:induction false} StaleIdsFrame(c1: Cache, c2: Cache, ps: seq<Playlist>)
    requires forall p :: p in ps ==> Load(c1, p.name) == Load(c2, p.name)
    ensures StaleIds(c1, ps) == StaleIds(c2, ps)
  {
    if ps != [] {
      StaleIdsFrame(c1, c2, ps[1..]);
    }
  }

  /** Whatever the list repeats, a name none of whose playlists is stale
      against the initial cache keeps its snapshot: no iteration rewrites it. */
  lemma {:induction false} FreshNameKeepsSnapshot(remote: string -> string -> nat -> seq<PlaylistItem>,
                                                  user: string, cache: Cache, ps: seq<Playlist>, n: string)
    requires forall p :: p in ps && p.name == n ==> !IsStale(cache, p)
    ensures Load(UpdateLocalCache(remote, user, cache, ps).cache, n) == Load(cache, n)
    decreases |ps|
  {
    if ps != [] {
      var first := SyncPlaylist(remote, user, cache, ps[0]);
      assert Load(first.cache, n) == Load(cache, n);
      assert forall p :: p in ps[1..] ==> p in ps;
      assert forall p :: p in ps[1..] && p.name == n ==> !IsStale(first.cache, p);
      FreshNameKeepsSnapshot(remote, user, first.cache, ps[1..], n);
    }
  }

  /** A playlist with no snapshot and a remote total of 0 is not fetched and
      gets no snapshot: 0 equals the length of the empty list read for it. */
  lemma EmptyPlaylistNotFetched(remote: string -> string -> nat -> seq<PlaylistItem>, user: string,
                                cache: Cache, p: Playlist)
    requires p.name !in cache && p.total == 0
    ensures UpdateLocalCache(remote, user, cache, [p]) == SyncResult(cache, [])
  {
  }
}
