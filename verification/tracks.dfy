/**
 The records the playlist rules work on, and the classification of playlists
 by name.
 */
module Tracks {
  import opened Text

  /** A track as cached: identity, display name, artists (the first is the
      primary one), length in milliseconds and playable URI. */
  datatype Track = Track(id: string, name: string, artists: seq<string>, durationMs: int, uri: string)

  /** A playlist as listed remotely; `total` is the remote-reported track count. */
  datatype Playlist = Playlist(id: string, name: string, ownerId: string, total: nat)

  /** One entry of a remote playlist-tracks page, wrapping the track. */
  datatype PlaylistItem = PlaylistItem(track: Track)

  /** A request to remove every occurrence of one track from one playlist. */
  datatype Removal = Removal(playlistId: string, trackId: string)

  const DislikedPrefix: string := "disliked_"
  const QueueSuffix: string := " Queue"

  /** A holding area for tracks the user dislikes. */
  predicate IsDisliked(name: string): (b: bool)
    ensures b <==> exists rest :: name == DislikedPrefix + rest
  {
    assert StartsWith(name, DislikedPrefix) ==> name == DislikedPrefix + name[|DislikedPrefix|..];
    StartsWith(name, DislikedPrefix)
  }

  /** A queue of candidate tracks for the playlist named without " Queue". */
  predicate IsQueue(name: string): (b: bool)
    ensures b <==> exists stem :: name == stem + QueueSuffix
  {
    assert EndsWith(name, QueueSuffix) ==> name == name[..|name| - |QueueSuffix|] + QueueSuffix;
    EndsWith(name, QueueSuffix)
  }

  /** Reading `artists[0]` needs a non-empty artist list. */
  predicate HasArtist(t: Track) {
    |t.artists| > 0
  }

  predicate AllHaveArtist(ts: seq<Track>) {
    forall t :: t in ts ==> HasArtist(t)
  }

  function Ids(ts: seq<Track>): set<string> {
    set t | t in ts :: t.id
  }

  /** Number of entries of `ts` whose id is `id`. */
  function CountId(ts: seq<Track>, id: string): nat {
    if ts == [] then 0
    else (if ts[0].id == id then 1 else 0) + CountId(ts[1..], id)
  }
}
