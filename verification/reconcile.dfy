/**
 The two removal rules. Both read only cached snapshots and emit one removal
 request per matching snapshot entry, in snapshot order. Nothing here updates
 the cache, so running a rule again on the same cache emits the same requests.
 */
module Reconcile {
  import opened Text
  import opened Tracks
  import opened TrackStore
  import opened TrackIndex

  /** The loop shared by both rules: for each entry of `snapshot` whose id
      is a key of `index`, request its removal from `playlistId`. */
  function ScanRemovals(playlistId: string, snapshot: seq<Track>, index: map<string, Track>)
    : (r: seq<Removal>)
    ensures |r| <= |snapshot|
    ensures forall i :: 0 <= i < |r| ==> r[i].playlistId == playlistId && r[i].trackId in index
    ensures forall rm :: multiset(r)[rm] ==
              (if rm.playlistId == playlistId && rm.trackId in index
               then CountId(snapshot, rm.trackId) else 0)
  {
    if snapshot == [] then []
    else
      var t := snapshot[0];
      var rest := ScanRemovals(playlistId, snapshot[1..], index);
      if t.id in index then [Removal(playlistId, t.id)] + rest else rest
  }

  /** The rule keeps snapshot order: scanning a concatenation is scanning the
      parts one after the other, and one entry yields at most its own removal. */
  lemma {:induction false} ScanRemovalsAppend(playlistId: string, a: seq<Track>, b: seq<Track>,
                                              index: map<string, Track>)
    ensures ScanRemovals(playlistId, a + b, index) ==
              ScanRemovals(playlistId, a, index) + ScanRemovals(playlistId, b, index)
    decreases |a|
  {
    if a != [] {
      assert (a + b)[1..] == a[1..] + b;
      ScanRemovalsAppend(playlistId, a[1..], b, index);
    } else {
      assert a + b == b;
    }
  }

  /** No entry matches the index: no removal is requested. */
  lemma {:induction false} ScanWithoutMatches(playlistId: string, snapshot: seq<Track>,
                                              index: map<string, Track>)
    requires forall t :: t in snapshot ==> t.id !in index
    ensures ScanRemovals(playlistId, snapshot, index) == []
  {
    if snapshot != [] {
      assert snapshot[0] in snapshot;
      ScanWithoutMatches(playlistId, snapshot[1..], index);
    }
  }

  lemma ScanRemovalsSingle(playlistId: string, t: Track, index: map<string, Track>)
    ensures ScanRemovals(playlistId, [t], index) ==
              (if t.id in index then [Removal(playlistId, t.id)] else [])
  {
  }

  /** Matched entries are logged with their first artist. */
  predicate MatchesHaveArtist(snapshot: seq<Track>, ids: set<string>) {
    forall t :: t in snapshot && t.id in ids ==> HasArtist(t)
  }

  /** The snapshots of the disliked playlists of `ps`, concatenated in order. */
  function DislikedTracks(cache: Cache, ps: seq<Playlist>): (ts: seq<Track>)
    ensures forall t :: t in ts <==>
              exists p :: p in ps && IsDisliked(p.name) && t in Load(cache, p.name)
  {
    if ps == [] then []
    else
      var own := if IsDisliked(ps[0].name) then Load(cache, ps[0].name) else [];
      var rest := DislikedTracks(cache, ps[1..]);
      assert forall p :: p in ps <==> p == ps[0] || p in ps[1..];
      own + rest
  }

  lemma {:induction false} DislikedTracksAppend(cache: Cache, a: seq<Playlist>, b: seq<Playlist>)
    ensures DislikedTracks(cache, a + b) == DislikedTracks(cache, a) + DislikedTracks(cache, b)
    decreases |a|
  {
    if a != [] {
      assert (a + b)[1..] == a[1..] + b;
      DislikedTracksAppend(cache, a[1..], b);
    } else {
      assert a + b == b;
    }
  }

  /** `load_all_disliked_tracks`: its keys are exactly the ids cached for
      disliked playlists; each maps to a cached disliked track with that id. */
  function LoadAllDislikedTracks(cache: Cache, ps: seq<Playlist>): (index: map<string, Track>)
    ensures forall id :: id in index <==>
              exists p, t :: p in ps && IsDisliked(p.name) && t in Load(cache, p.name) && t.id == id
    ensures forall id :: id in index ==>
              index[id].id == id && index[id] in DislikedTracks(cache, ps)
  {
    CreateTrackHash(DislikedTracks(cache, ps))
  }

  /** A playlist that is not disliked, or has no snapshot, adds nothing to
      the disliked index wherever it stands in the list. */
  lemma DislikedIndexIgnores(cache: Cache, before: seq<Playlist>, p: Playlist, after: seq<Playlist>)
    requires !IsDisliked(p.name) || p.name !in cache
    ensures LoadAllDislikedTracks(cache, before + [p] + after) ==
              LoadAllDislikedTracks(cache, before + after)
  {
    DislikedTracksAppend(cache, before + [p], after);
    DislikedTracksAppend(cache, before, [p]);
    DislikedTracksAppend(cache, before, after);
    assert DislikedTracks(cache, [p]) == [] by {
      assert [p][1..] == [];
    }
    assert DislikedTracks(cache, before + [p] + after) == DislikedTracks(cache, before + after);
  }

  /** `scan_playlist_for_disliked_tracks`. */
  function ScanPlaylistForDislikedTracks(cache: Cache, p: Playlist, index: map<string, Track>)
    : (r: seq<Removal>)
    requires !IsDisliked(p.name) ==> MatchesHaveArtist(Load(cache, p.name), index.Keys)
    ensures IsDisliked(p.name) ==> r == []
    ensures forall i :: 0 <= i < |r| ==> r[i].playlistId == p.id && r[i].trackId in index
    ensures !IsDisliked(p.name) ==>
              forall rm :: multiset(r)[rm] ==
                (if rm.playlistId == p.id && rm.trackId in index
                 then CountId(Load(cache, p.name), rm.trackId) else 0)
  {
    if IsDisliked(p.name) then []
    else ScanRemovals(p.id, Load(cache, p.name), index)
  }

  /** The playlist a queue feeds: `name.replace(' Queue', '')`. */
  function BaseName(name: string): (b: string)
    ensures |b| <= |name|
    ensures !Occurs(name, QueueSuffix) ==> b == name
    ensures IsQueue(name) ==> |b| <= |name| - |QueueSuffix|
  {
    assert IsQueue(name) ==> |RemoveAll(name, QueueSuffix)| <= |name| - |QueueSuffix| by {
      if IsQueue(name) {
        var stem := name[..|name| - |QueueSuffix|];
        assert name == stem + QueueSuffix;
        assert HeadIsUnique(QueueSuffix);
        RemoveAllAppendPattern(stem, QueueSuffix);
      }
    }
    RemoveAll(name, QueueSuffix)
  }

  /** Removing " Queue" from the end of a name leaves the rest as the base
      name with its own " Queue" occurrences removed too. */
  lemma BaseNameOfQueue(stem: string)
    ensures BaseName(stem + QueueSuffix) == RemoveAll(stem, QueueSuffix)
    ensures !Occurs(stem, QueueSuffix) ==> BaseName(stem + QueueSuffix) == stem
  {
    assert HeadIsUnique(QueueSuffix);
    RemoveAllAppendPattern(stem, QueueSuffix);
  }

  /** `process_queue_playlist`: entries of the queue snapshot that the base
      playlist's snapshot already holds are removed from the queue. A
      disliked name ending in " Queue" is treated like any other queue. */
  function ProcessQueuePlaylist(cache: Cache, p: Playlist): (r: seq<Removal>)
    requires IsQueue(p.name) ==>
               MatchesHaveArtist(Load(cache, p.name), Ids(Load(cache, BaseName(p.name))))
    ensures !IsQueue(p.name) ==> r == []
    ensures Load(cache, BaseName(p.name)) == [] ==> r == []
    ensures forall i :: 0 <= i < |r| ==>
              r[i].playlistId == p.id && r[i].trackId in Ids(Load(cache, BaseName(p.name)))
    ensures IsQueue(p.name) ==>
              forall rm :: multiset(r)[rm] ==
                (if rm.playlistId == p.id && rm.trackId in Ids(Load(cache, BaseName(p.name)))
                 then CountId(Load(cache, p.name), rm.trackId) else 0)
  {
    if !IsQueue(p.name) then []
    else
      var destination := CreateTrackHash(Load(cache, BaseName(p.name)));
      var r := ScanRemovals(p.id, Load(cache, p.name), destination);
      assert Load(cache, BaseName(p.name)) == [] ==> r == [] by {
        if Load(cache, BaseName(p.name)) == [] {
          ScanWithoutMatches(p.id, Load(cache, p.name), destination);
        }
      }
      r
  }

  /** No character of `s` is a blank, so " Queue" cannot occur in it. */
  lemma NoQueueInBlankFree(s: string)
    requires forall i :: 0 <= i < |s| ==> s[i] != ' '
    ensures !Occurs(s, QueueSuffix)
  {
    forall i | 0 <= i <= |s| ensures !StartsWith(s[i..], QueueSuffix) {
      if i < |s| {
        assert s[i..][0] == s[i];
      }
    }
  }

  /** A " Queue" inside the name goes too: "A Queue B" feeds "A B". The two
      sides of the occurrence lose their own occurrences independently. */
  lemma BaseNameSplit(a: string, b: string)
    ensures BaseName(a + QueueSuffix + b) == RemoveAll(a, QueueSuffix) + RemoveAll(b, QueueSuffix)
    ensures !Occurs(a, QueueSuffix) && !Occurs(b, QueueSuffix) ==> BaseName(a + QueueSuffix + b) == a + b
  {
    assert HeadIsUnique(QueueSuffix);
    RemoveAllSplit(a, b, QueueSuffix);
  }

  /** Repeated trailing " Queue"s all go: "Mix Queue Queue" feeds "Mix", and
      "Mix Queue Queue Queue" feeds it too. */
  lemma BaseNameRemovesRepeatedSuffix(stem: string)
    ensures BaseName(stem + QueueSuffix + QueueSuffix) == BaseName(stem)
    ensures !Occurs(stem, QueueSuffix) ==> BaseName(stem + QueueSuffix + QueueSuffix) == stem
  {
    BaseNameOfQueue(stem);
    BaseNameOfQueue(stem + QueueSuffix);
  }

  /** Base snapshot [456, 789] and queue snapshot [123, 456, 789]: 456 and
      789 are removed from the queue, in that order. */
  lemma QueueScenario(cache: Cache, p: Playlist, stem: string, t123: Track, t456: Track, t789: Track)
    requires forall i :: 0 <= i < |stem| ==> stem[i] != ' '
    requires p.name == stem + QueueSuffix
    requires t123.id == "123" && t456.id == "456" && t789.id == "789"
    requires HasArtist(t123) && HasArtist(t456) && HasArtist(t789)
    requires Load(cache, stem) == [t456, t789] && Load(cache, p.name) == [t123, t456, t789]
    ensures ProcessQueuePlaylist(cache, p) == [Removal(p.id, "456"), Removal(p.id, "789")]
  {
    var base := [t456, t789];
    NoQueueInBlankFree(stem);
    BaseNameOfQueue(stem);
    assert IsQueue(p.name) by {
      assert p.name[|p.name| - |QueueSuffix|..] == QueueSuffix;
    }
    assert Ids(base) == {"456", "789"} by {
      assert t456 in base && t789 in base;
    }
    ScanThreeEntries(p.id, t123, t456, t789, CreateTrackHash(base));
  }

  lemma ScanThreeEntries(playlistId: string, a: Track, b: Track, c: Track, index: map<string, Track>)
    requires a.id !in index && b.id in index && c.id in index
    ensures ScanRemovals(playlistId, [a, b, c], index) ==
              [Removal(playlistId, b.id), Removal(playlistId, c.id)]
  {
  }

  /** A track listed twice in a snapshot is requested for removal twice. */
  lemma RepeatedEntryRemovedTwice(cache: Cache, p: Playlist, index: map<string, Track>, t: Track)
    requires !IsDisliked(p.name) && Load(cache, p.name) == [t, t]
    requires t.id in index && HasArtist(t)
    ensures ScanPlaylistForDislikedTracks(cache, p, index) == [Removal(p.id, t.id), Removal(p.id, t.id)]
  {
  }
}
