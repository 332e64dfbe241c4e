/**
 `get_all_playlists` and `get_playlist_tracks`: page through a remote listing
 by offset, stop at the first empty page or after a fixed number of pages, and
 concatenate what the pages hold. The remote service is a parameter: a
 function from offset to the page served at that offset.
 */
module Paging {
  import opened Tracks

  /** `user_playlists(limit=50)` over offsets 0, 50, ..., 9950. */
  const PlaylistPageSize: nat := 50
  const PlaylistOffsetLimit: nat := 10000
  const PlaylistPageCount: nat := 200

  /** `user_playlist_tracks(limit=100)` over offsets 0, 100, ..., 10900. */
  const TrackPageSize: nat := 100
  const MaxPlaylistTracks: nat := 11000
  const TrackPageCount: nat := 110

  /** The page with index `k`, served at offset `size * k`. */
  function Page<T>(pageAt: nat -> seq<T>, size: nat, k: nat): seq<T> {
    pageAt(size * k)
  }

  /** How many pages are read: the index of the first empty page, or
      `count` when the first `count` pages are all non-empty. */
  function PagesRead<T>(pageAt: nat -> seq<T>, size: nat, count: nat): (n: nat)
    ensures n <= count
    ensures forall k :: 0 <= k < n ==> |Page(pageAt, size, k)| > 0
    ensures n < count ==> |Page(pageAt, size, n)| == 0
  {
    PagesReadFrom(pageAt, size, count, 0)
  }

  function PagesReadFrom<T>(pageAt: nat -> seq<T>, size: nat, count: nat, k: nat): (n: nat)
    requires k <= count
    requires forall j :: 0 <= j < k ==> |Page(pageAt, size, j)| > 0
    ensures k <= n <= count
    ensures forall j :: 0 <= j < n ==> |Page(pageAt, size, j)| > 0
    ensures n < count ==> |Page(pageAt, size, n)| == 0
    decreases count - k
  {
    if k == count || |Page(pageAt, size, k)| == 0 then k
    else PagesReadFrom(pageAt, size, count, k + 1)
  }

  /** The number of pages read is the only `n` with those two properties. */
  lemma PagesReadUnique<T>(pageAt: nat -> seq<T>, size: nat, count: nat, n: nat)
    requires n <= count
    requires forall k :: 0 <= k < n ==> |Page(pageAt, size, k)| > 0
    requires n < count ==> |Page(pageAt, size, n)| == 0
    ensures PagesRead(pageAt, size, count) == n
  {
  }

  /** The playlists of `ps` owned by `user`, in order. */
  function OwnedBy(ps: seq<Playlist>, user: string): (r: seq<Playlist>)
    ensures |r| <= |ps|
    ensures forall p :: p in r <==> p in ps && p.ownerId == user
  {
    if ps == [] then []
    else
      var rest := OwnedBy(ps[1..], user);
      assert forall p :: p in ps <==> p == ps[0] || p in ps[1..];
      if ps[0].ownerId == user then [ps[0]] + rest else rest
  }

  /** Filtering keeps every owned entry as often as the page lists it, and
      drops every other entry. */
  lemma {:induction false} OwnedByCounts(ps: seq<Playlist>, user: string, p: Playlist)
    ensures multiset(OwnedBy(ps, user))[p] == if p.ownerId == user then multiset(ps)[p] else 0
  {
    if ps != [] {
      OwnedByCounts(ps[1..], user, p);
      assert multiset(ps) == multiset{ps[0]} + multiset(ps[1..]) by {
        assert ps == [ps[0]] + ps[1..];
      }
    }
  }

  /** Filtering keeps the order: the owned playlists of a concatenation are
      those of its first part, then those of its second. */
  lemma {:induction false} OwnedByAppend(a: seq<Playlist>, b: seq<Playlist>, user: string)
    ensures OwnedBy(a + b, user) == OwnedBy(a, user) + OwnedBy(b, user)
    decreases |a|
  {
    if a == [] {
      assert a + b == b;
    } else {
      assert (a + b)[0] == a[0];
      assert (a + b)[1..] == a[1..] + b;
      OwnedByAppend(a[1..], b, user);
    }
  }

  /** The owned playlists of the first `n` pages, page after page. */
  function OwnedPages(pageAt: nat -> seq<Playlist>, user: string, n: nat): seq<Playlist> {
    if n == 0 then []
    else OwnedPages(pageAt, user, n - 1) + OwnedBy(Page(pageAt, PlaylistPageSize, n - 1), user)
  }

  /** The tracks wrapped by a page of playlist items. */
  function TracksOf(items: seq<PlaylistItem>): (ts: seq<Track>)
    ensures |ts| == |items|
    ensures forall i :: 0 <= i < |items| ==> ts[i] == items[i].track
  {
    if items == [] then [] else [items[0].track] + TracksOf(items[1..])
  }

  /** The tracks of the first `n` pages, page after page. */
  function TrackPages(pageAt: nat -> seq<PlaylistItem>, n: nat): seq<Track> {
    if n == 0 then []
    else TrackPages(pageAt, n - 1) + TracksOf(Page(pageAt, TrackPageSize, n - 1))
  }

  /** What `get_playlist_tracks` returns for one playlist. */
  function PlaylistTracks(userPlaylistTracks: string -> string -> nat -> seq<PlaylistItem>,
                          user: string, playlistId: string): seq<Track>
  {
    var pageAt := userPlaylistTracks(user)(playlistId);
    TrackPages(pageAt, PagesRead(pageAt, TrackPageSize, TrackPageCount))
  }

  /** `get_all_playlists`: the playlists of `user` that `user` owns. The stop
      test looks at the unfiltered page, so a page holding only other users'
      playlists does not end the listing. */
  method GetAllPlaylists(userPlaylists: string -> nat -> seq<Playlist>, user: string)
    returns (all: seq<Playlist>)
    ensures all == OwnedPages(userPlaylists(user), user,
                              PagesRead(userPlaylists(user), PlaylistPageSize, PlaylistPageCount))
    ensures forall p :: p in all ==> p.ownerId == user
  {
    ghost var pageAt := userPlaylists(user);
    all := [];
    var offset := 0;
    ghost var k: nat := 0;
    while offset < PlaylistOffsetLimit
      invariant offset == PlaylistPageSize * k && k <= PlaylistPageCount
      invariant forall j :: 0 <= j < k ==> |Page(pageAt, PlaylistPageSize, j)| > 0
      invariant all == OwnedPages(pageAt, user, k)
    {
      var page := userPlaylists(user)(offset);
      assert page == Page(pageAt, PlaylistPageSize, k);
      if |page| < 1 {
        break;
      }
      all := all + OwnedBy(page, user);
      offset := offset + PlaylistPageSize;
      k := k + 1;
    }
    PagesReadUnique(pageAt, PlaylistPageSize, PlaylistPageCount, k);
    OwnedPagesOwned(pageAt, user, k);
  }

  /** `get_playlist_tracks`: every track of the playlist, page after page. */
  method GetPlaylistTracks(userPlaylistTracks: string -> string -> nat -> seq<PlaylistItem>,
                           user: string, playlistId: string)
    returns (tracks: seq<Track>)
    ensures tracks == PlaylistTracks(userPlaylistTracks, user, playlistId)
  {
    ghost var pageAt := userPlaylistTracks(user)(playlistId);
    tracks := [];
    var offset := 0;
    ghost var k: nat := 0;
    while offset < MaxPlaylistTracks
      invariant offset == TrackPageSize * k && k <= TrackPageCount
      invariant forall j :: 0 <= j < k ==> |Page(pageAt, TrackPageSize, j)| > 0
      invariant tracks == TrackPages(pageAt, k)
    {
      var items := userPlaylistTracks(user)(playlistId)(offset);
      assert items == Page(pageAt, TrackPageSize, k);
      if |items| < 1 {
        break;
      }
      tracks := tracks + TracksOf(items);
      offset := offset + TrackPageSize;
      k := k + 1;
    }
    PagesReadUnique(pageAt, TrackPageSize, TrackPageCount, k);
  }

  lemma {:induction false} OwnedPagesOwned(pageAt: nat -> seq<Playlist>, user: string, n: nat)
    ensures forall p :: p in OwnedPages(pageAt, user, n) ==> p.ownerId == user
  {
    if n > 0 {
      OwnedPagesOwned(pageAt, user, n - 1);
    }
  }

  /** A playlist is listed iff it is owned by `user` and sits on a page
      before the first empty one. */
  lemma {:induction false} OwnedPagesMembers(pageAt: nat -> seq<Playlist>, user: string, n: nat, p: Playlist)
    ensures p in OwnedPages(pageAt, user, n) <==>
              p.ownerId == user && exists k :: 0 <= k < n && p in Page(pageAt, PlaylistPageSize, k)
  {
    if n > 0 {
      OwnedPagesMembers(pageAt, user, n - 1, p);
      if p.ownerId == user && p in Page(pageAt, PlaylistPageSize, n - 1) {
        assert p in OwnedBy(Page(pageAt, PlaylistPageSize, n - 1), user);
      }
    }
  }

  /** A track is listed iff some item of a page before the first empty one
      wraps it. */
  lemma {:induction false} TrackPagesMembers(pageAt: nat -> seq<PlaylistItem>, n: nat, t: Track)
    ensures t in TrackPages(pageAt, n) <==>
              exists k, i :: 0 <= k < n && 0 <= i < |Page(pageAt, TrackPageSize, k)| &&
                             Page(pageAt, TrackPageSize, k)[i].track == t
  {
    if n > 0 {
      TrackPagesMembers(pageAt, n - 1, t);
      var last := Page(pageAt, TrackPageSize, n - 1);
      var ts := TracksOf(last);
      if t in ts {
        var i :| 0 <= i < |ts| && ts[i] == t;
        assert last[i].track == t;
      }
      if exists i :: 0 <= i < |last| && last[i].track == t {
        var i :| 0 <= i < |last| && last[i].track == t;
        assert ts[i] == t;
      }
    }
  }

  /** Pages of 50 and 50 playlists owned by `user`, then 2 owned by someone
      else, then an empty page: 100 playlists are listed. */
  lemma ListingOfThreePages(pageAt: nat -> seq<Playlist>, user: string)
    requires |Page(pageAt, PlaylistPageSize, 0)| == 50 && |Page(pageAt, PlaylistPageSize, 1)| == 50
    requires |Page(pageAt, PlaylistPageSize, 2)| == 2 && Page(pageAt, PlaylistPageSize, 3) == []
    requires forall p :: p in Page(pageAt, PlaylistPageSize, 0) ==> p.ownerId == user
    requires forall p :: p in Page(pageAt, PlaylistPageSize, 1) ==> p.ownerId == user
    requires forall p :: p in Page(pageAt, PlaylistPageSize, 2) ==> p.ownerId != user
    ensures |OwnedPages(pageAt, user, PagesRead(pageAt, PlaylistPageSize, PlaylistPageCount))| == 100
  {
    assert forall k :: 0 <= k < 3 ==> |Page(pageAt, PlaylistPageSize, k)| > 0;
    PagesReadUnique(pageAt, PlaylistPageSize, PlaylistPageCount, 3);
    OwnedAll(Page(pageAt, PlaylistPageSize, 0), user);
    OwnedAll(Page(pageAt, PlaylistPageSize, 1), user);
    OwnedNone(Page(pageAt, PlaylistPageSize, 2), user);
    assert OwnedPages(pageAt, user, 1) == Page(pageAt, PlaylistPageSize, 0);
    assert OwnedPages(pageAt, user, 2) == Page(pageAt, PlaylistPageSize, 0) + Page(pageAt, PlaylistPageSize, 1);
    assert OwnedPages(pageAt, user, 3) == OwnedPages(pageAt, user, 2);
  }

  lemma {:induction false} OwnedAll(ps: seq<Playlist>, user: string)
    requires forall p :: p in ps ==> p.ownerId == user
    ensures OwnedBy(ps, user) == ps
  {
    if ps != [] {
      OwnedAll(ps[1..], user);
    }
  }

  lemma OwnedNone(ps: seq<Playlist>, user: string)
    requires forall p :: p in ps ==> p.ownerId != user
    ensures OwnedBy(ps, user) == []
  {
  }
}
