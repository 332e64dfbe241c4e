# Playlist reconciliation model (spotify_automation)

This project is a Dafny model of the playlist-curation logic of `spotify_automation`.
That program mirrors a user's playlists into a local cache of track lists. It then
applies three rules to the cache:

- remove from every other playlist the tracks held in a `disliked_` playlist;
- remove from a `"<name> Queue"` playlist the tracks already in `<name>`;
- report probable duplicates inside one playlist.

The remote service is a parameter. A listing is a function from offset to the page
served at that offset. The local cache is a `map<string, seq<Track>>` keyed by
playlist name, where a missing name reads as `[]`. A removal is a
`Removal(playlistId, trackId)` value. Each rule is a pure function that returns its
removal requests in the order they would be sent.

Modules:

- `Text`: `startswith`, `endswith`, `str.replace(pat, '')` and ASCII `lower`.
- `Tracks`: the records and the classification of playlist names.
- `TrackStore`: `load_tracks_file` and `save_tracks_file` as map reads and writes.
- `TrackIndex`: `create_track_hash`.
- `Paging`: `get_all_playlists` and `get_playlist_tracks`. Each is a loop method, and each is proved equal to a declarative account: "the pages before the first empty one, concatenated".
- `CacheSync`: `update_local_cache`.
- `Reconcile`: the disliked index, the disliked rule and the queue rule.
- `Duplicates`: the duplicate detector. It is a left fold, proved equal to a declarative account that names each entry's baseline.

Where the code differs from what one might expect of it, the model follows the code:

- A playlist with no snapshot and a remote total of 0 is not fetched, and it gets no snapshot. `len([]) == 0` passes the freshness test (`CacheSync.EmptyPlaylistNotFetched`).
- The reconcilers are not idempotent. They read only the cache, and nothing updates the cache after a removal. So a second run on the same cache issues the same requests again.
- The queue rule derives the base name with `replace`, which deletes every `" Queue"`, not only the suffix (`Reconcile.BaseNameSplit`). It also does not skip `disliked_` names.
- The duplicate detector never flags the first entry of a key. That entry's id can still be reported, though: when the same track is listed twice, the second copy is flagged (`Duplicates.SameTrackTwice`).
- `update_local_cache` judges each playlist against the cache as the earlier iterations left it. Two playlists with the same name therefore interact. The "stale iff lengths differ" statement is proved for lists with distinct names.

## Model

| member | source | states |
|---|---|---|
| `TrackStore.Load` | spotify_automation/spotify_automation.py:112-125 | A name with a snapshot reads as that snapshot; a name without one reads as the empty list |
| `TrackStore.Save` | spotify_automation/spotify_automation.py:112-140 | Loading a name right after saving it returns the saved list, every other name reads as before |
| `TrackIndex.CreateTrackHash` | spotify_automation/spotify_automation.py:163-169 | The keys are exactly the ids in the list; each key maps to the last entry of the list with that id |
| `TrackIndex.TrackHashSize` | spotify_automation/spotify_automation.py:169 | The index has one entry per distinct id of the list |
| `Paging.PagesRead` | spotify_automation/spotify_automation.py:78-82 | The number of pages read is the index of the first empty page, or the page cap when no page before it is empty |
| `Paging.OwnedBy` | spotify_automation/spotify_automation.py:84 | A playlist is kept iff it is on the page and owned by the user |
| `Paging.OwnedByCounts` | spotify_automation/spotify_automation.py:84 | Each playlist owned by the user is kept exactly as many times as the page lists it; any other is kept zero times |
| `Paging.OwnedByAppend` | spotify_automation/spotify_automation.py:84 | Filtering keeps order: the owned playlists of a concatenation are those of the first part followed by those of the second |
| `Paging.TracksOf` | spotify_automation/spotify_automation.py:107 | Each page item yields its wrapped track, position by position |
| `Paging.GetAllPlaylists` | spotify_automation/spotify_automation.py:68-87 | The loop returns the owned playlists of the pages read (at most 200 pages of 50), page after page; every playlist returned is owned by the user |
| `Paging.GetPlaylistTracks` | spotify_automation/spotify_automation.py:90-109 | The loop returns the tracks of the pages read (at most 110 pages of 100), page after page |
| `Paging.OwnedPagesOwned` | spotify_automation/spotify_automation.py:84 | Every playlist listed is owned by the user |
| `Paging.OwnedPagesMembers` | spotify_automation/spotify_automation.py:78-84 | A playlist is listed iff the user owns it and it is on a page before the first empty one |
| `Paging.TrackPagesMembers` | spotify_automation/spotify_automation.py:100-107 | A track is listed iff an item on some page before the first empty one wraps it |
| `Paging.ListingOfThreePages` | tests/test_spotify_automation.py:23-41 | Pages of 50 and 50 owned playlists, then 2 owned by someone else, then an empty page, list 100 playlists |
| `CacheSync.IsStale` | spotify_automation/spotify_automation.py:154-155 | A playlist with no snapshot is stale iff its total is non-zero; one with a snapshot is stale iff the snapshot's length differs from the total |
| `CacheSync.SyncPlaylist` | spotify_automation/spotify_automation.py:153-160 | A playlist whose snapshot length equals its total is not fetched and changes nothing; otherwise its snapshot becomes the fetched track list and its id is fetched; no other name changes |
| `CacheSync.UpdateLocalCache` | spotify_automation/spotify_automation.py:143-160 | Names of no listed playlist keep their snapshot, and no snapshot is created for them; there are no more fetches than playlists, and each fetched id belongs to a listed playlist |
| `CacheSync.UpdateDistinctNames` | spotify_automation/spotify_automation.py:152-160 | With distinct names, a playlist's snapshot is replaced by the fetched list iff its cached length differs from its total, and otherwise left untouched; the fetches are exactly the stale playlists, in list order |
| `CacheSync.FreshNameKeepsSnapshot` | spotify_automation/spotify_automation.py:152-160 | For any list, repeated names included: a name none of whose playlists is stale against the initial cache keeps its snapshot after the pass |
| `CacheSync.EmptyPlaylistNotFetched` | spotify_automation/spotify_automation.py:153-156 | A playlist with no snapshot and total 0 is not fetched and gets no snapshot |
| `Reconcile.ScanRemovals` | spotify_automation/spotify_automation.py:206-213 | Each removal targets the playlist and an indexed id; an indexed id is requested once per snapshot entry carrying it, and other ids never |
| `Reconcile.ScanRemovalsAppend` | spotify_automation/spotify_automation.py:206-213 | Removals follow snapshot order: scanning a concatenation emits the removals of the first part, then those of the second |
| `Reconcile.ScanRemovalsSingle` | spotify_automation/spotify_automation.py:208-213 | One entry yields its own removal iff its id is indexed |
| `Reconcile.ScanWithoutMatches` | spotify_automation/spotify_automation.py:235-237 | A snapshot with no indexed id yields no removal |
| `Reconcile.RepeatedEntryRemovedTwice` | spotify_automation/spotify_automation.py:206-213 | A disliked track listed twice in a snapshot is requested for removal twice |
| `Reconcile.DislikedTracks` | spotify_automation/spotify_automation.py:181-183 | A track is collected iff it is in the cached snapshot of some listed `disliked_` playlist |
| `Reconcile.LoadAllDislikedTracks` | spotify_automation/spotify_automation.py:172-188 | The index's keys are exactly the ids in cached snapshots of `disliked_` playlists; each key maps to a collected track with that id |
| `Reconcile.DislikedIndexIgnores` | spotify_automation/spotify_automation.py:182-183 | A playlist that is not `disliked_`, or that has no snapshot, changes nothing in the index wherever it appears in the list |
| `Reconcile.ScanPlaylistForDislikedTracks` | spotify_automation/spotify_automation.py:191-213 | A `disliked_` playlist yields no removal; any other yields one removal per snapshot entry whose id is in the disliked index, against its own id |
| `Reconcile.BaseName` | spotify_automation/spotify_automation.py:233 | The base name is never longer than the name, equals the name when " Queue" does not occur in it, and for a queue name is shorter by at least the length of " Queue" |
| `Reconcile.BaseNameOfQueue` | spotify_automation/spotify_automation.py:233 | The base name of `stem + " Queue"` is `stem` with its own `" Queue"` occurrences removed, and `stem` itself when it has none |
| `Reconcile.BaseNameSplit` | spotify_automation/spotify_automation.py:233 | A " Queue" anywhere in the name is deleted: the base name of `a + " Queue" + b` is `a` and `b` each with their own occurrences removed, joined; so "A Queue B" feeds "A B" |
| `Reconcile.BaseNameRemovesRepeatedSuffix` | spotify_automation/spotify_automation.py:233 | For any stem, the base name of `stem + " Queue Queue"` is the base name of `stem`; for a stem in which " Queue" does not occur, it is `stem` itself |
| `Reconcile.ProcessQueuePlaylist` | spotify_automation/spotify_automation.py:216-242 | A name not ending in " Queue" yields no removal, and neither does an absent or empty base snapshot; otherwise there is one removal per queue entry whose id is in the base snapshot |
| `Reconcile.QueueScenario` | spotify_automation/spotify_automation.py:232-242 | Base snapshot [456, 789] and queue snapshot [123, 456, 789] give removals of 456 and then 789 |
| `Text.RemoveAll` | spotify_automation/spotify_automation.py:233 | Deleting every occurrence never lengthens the name, and a name without the pattern is unchanged |
| `Text.RemoveAllSplit` | spotify_automation/spotify_automation.py:233 | For a pattern whose first character occurs nowhere else in it, an occurrence anywhere in a string is deleted and the parts before and after it are treated independently |
| `Text.RemoveAllAppendPattern` | spotify_automation/spotify_automation.py:233 | For a pattern whose first character occurs nowhere else in it, appending it to a name adds exactly one deletion |
| `Text.Lower` | spotify_automation/spotify_automation.py:261 | Lower-casing gives the same text up to letter case (each capital becomes its own small letter, every other character is kept) with no capital letter left |
| `Text.LowerUnique` | spotify_automation/spotify_automation.py:261 | No other string than the lower-cased one is the same text up to case without capitals |
| `Text.LowerEqualIff` | spotify_automation/spotify_automation.py:261 | Two strings lower-case alike iff they agree character by character up to ASCII letter case |
| `Tracks.IsDisliked` | spotify_automation/spotify_automation.py:183 | A name is a disliked playlist's iff it is `"disliked_"` followed by something |
| `Tracks.IsQueue` | spotify_automation/spotify_automation.py:227 | A name is a queue's iff it is something followed by `" Queue"` |
| `Duplicates.KeySpellsTrack` | spotify_automation/spotify_automation.py:260-261 | The key spells "name - first artist" up to letter case, with no capital letter |
| `Duplicates.Close` | spotify_automation/spotify_automation.py:268 | Closeness is symmetric, and equal durations are close |
| `Duplicates.Step` | spotify_automation/spotify_automation.py:260-271 | One iteration: the key gets a baseline if it had none (this entry), existing baselines are kept, and the entry's id is newly flagged iff its key already had a baseline within 10000 ms of it |
| `Duplicates.ScanContents` | spotify_automation/spotify_automation.py:258-271 | After the loop, every baseline is an entry filed under its own key, every entry's key has a baseline, and only ids of entries are flagged |
| `Duplicates.KeyIgnoresCase` | spotify_automation/spotify_automation.py:260-261 | Tracks whose names, and whose first artists, agree character by character up to ASCII letter case share a key |
| `Duplicates.CaseVariantsCollide` | spotify_automation/spotify_automation.py:260-261 | "Song" by "Band" and "SONG" by "band" share a key |
| `Duplicates.FirstIndexOf` | spotify_automation/spotify_automation.py:263-265 | The result is the position of the first entry with the key, or the length when there is none |
| `Duplicates.ScanBaseline` | spotify_automation/spotify_automation.py:263-265 | After the loop, a key has a baseline iff some entry has that key, and the baseline is the key's first entry |
| `Duplicates.ScanMatchesSpec` | spotify_automation/spotify_automation.py:258-271 | The loop flags exactly the ids of entries that are not the first of their key and whose duration is within 10000 ms of that first entry's |
| `Duplicates.BaselineNeverReplaced` | spotify_automation/spotify_automation.py:263-265 | Once a key has a baseline, later entries never replace it |
| `Duplicates.FindPossibleDuplicateTracks` | spotify_automation/spotify_automation.py:245-273 | A `disliked_` playlist returns nothing; any other returns the flagged ids of its snapshot, each the id of an entry that is not the first of its key |
| `Duplicates.PairWithSameKey` | spotify_automation/spotify_automation.py:263-271 | For two entries with one key, the second is flagged iff their durations differ by at most 10000 ms, and the first never is |
| `Duplicates.DurationScenarios` | spotify_automation/spotify_automation.py:268 | Durations 10000 and 10001 flag the second track; 10000 and 20001 flag nothing |
| `Duplicates.UnflaggedEntryIsNoBaseline` | spotify_automation/spotify_automation.py:263-271 | An entry that was not flagged does not become the baseline: a third entry close to it, but far from the first entry, is not flagged |
| `Duplicates.SameTrackTwice` | spotify_automation/spotify_automation.py:258-271 | A track listed twice is reported, under the id its first entry also has |

## Left out

- `login`, `_get_login_session`, the OAuth scope string, environment-variable configuration and `sys.exit`. These are authentication plumbing over the client library, which is not part of this model.
- The client library's calls. They become parameters: an offset-to-page function for playlists and another for playlist tracks. Removal requests become returned `Removal` values instead of calls.
- JSON encoding and decoding in `load_tracks_file` and `save_tracks_file`, and file-system errors. The store is a map, and a missing file reads as the empty list.
- Logging and message formatting.
- `CacheSync.UpdateLocalCache`: for a list that repeats a playlist name, its own contract states only the frame and a bound on the fetches. A later playlist is judged against the snapshot an earlier one of the same name may have just written, so it can go unfetched although it was stale against the initial cache. For such lists the model proves only that a name with no stale playlist keeps its snapshot (`CacheSync.FreshNameKeepsSnapshot`); the exact fetches are stated for distinct names.
- `Reconcile.ScanPlaylistForDislikedTracks` requires every matched entry to have an artist. Its log line reads `artists[0]`, which raises on a track with no artist before the removal is sent; that failure is not modelled.
- `Reconcile.ProcessQueuePlaylist` requires every matched queue entry to have an artist, for the same reason: its log line reads `artists[0]` before the removal is sent.
- `Text.RemoveAll`: its own contract states only that the result is no longer and that a string without the pattern is unchanged. That every occurrence is deleted, wherever it sits, is stated by `Text.RemoveAllSplit` together with `Text.RemoveAllAppendPattern`.
- `Duplicates.FindPossibleDuplicateTracks` requires every entry of a playlist that is not `disliked_` to have an artist. Its key reads `artists[0]`, which raises otherwise; that failure is not modelled.
- `Duplicates.Close`: `math.isclose` with its default relative tolerance is modelled as the integer test `|a - b| <= 10000`. For integer millisecond durations below about 10^13 the two agree.
- `Text.Lower`: lower-cases ASCII letters only. Python's `str.lower` also maps non-ASCII letters.
- The truthiness of `dict.get(...)`: it is modelled as key membership. A `Track` value is never an empty record.
- The item wrapper of a playlist-tracks page holds only the track. An item whose track is null is not modelled. A `Track` holds only the fields the rules read.
- `main.py`, a driver script that makes two calls.
- The test at tests/test_spotify_automation.py:43-59. It stubs a different client method from the one the code calls, so it says nothing about this code.
- Concurrency and retries. The code has none.
