/**
 `find_possible_duplicate_tracks`: one pass over a playlist's snapshot that
 flags tracks sharing a case-folded "name - first artist" key with an earlier
 track of about the same length. The pass is defined as the source runs it
 (a left fold over the snapshot) and proved equal to a declarative account
 that names, for each entry, the baseline it is compared with.
 */
module Duplicates {
  import opened Text
  import opened Tracks
  import opened TrackStore

  datatype Option<+T> = None | Some(value: T)

  /** `isclose(a, b, abs_tol=10000)` on millisecond durations. */
  const DurationToleranceMs: int := 10000

  /** The test is symmetric, and a track is always close to itself. */
  predicate Close(a: int, b: int): (r: bool)
    ensures r <==> -DurationToleranceMs <= b - a <= DurationToleranceMs
    ensures a == b ==> r
  {
    -DurationToleranceMs <= a - b <= DurationToleranceMs
  }

  /** `f"{name} - {artists[0]}".lower()` */
  function Key(t: Track): string
    requires HasArtist(t)
  {
    Lower(t.name + " - " + t.artists[0])
  }

  /** The key spells "name - first artist" up to letter case, with no capital. */
  lemma KeySpellsTrack(t: Track)
    requires HasArtist(t)
    ensures EqualUpToCase(Key(t), t.name + " - " + t.artists[0])
    ensures NoCapital(Key(t))
  {
  }

  /** Letter case does not separate keys. */
  lemma KeyIgnoresCase(a: Track, b: Track)
    requires HasArtist(a) && HasArtist(b)
    requires EqualUpToCase(a.name, b.name) && EqualUpToCase(a.artists[0], b.artists[0])
    ensures Key(a) == Key(b)
  {
  }

  /** "Song - Band" and "SONG - band" are one key. */
  lemma CaseVariantsCollide(a: Track, b: Track)
    requires a.name == "Song" && a.artists == ["Band"]
    requires b.name == "SONG" && b.artists == ["band"]
    ensures Key(a) == Key(b)
  {
  }

  // ---------------------------------------------------------------------
  // The pass as the source runs it

  /** `deduplicated` (first track seen per key) and `possible_duplicates`. */
  datatype DedupState = DedupState(baseline: map<string, Track>, flagged: set<string>)

  /** One loop iteration: an unseen key records its track as the baseline;
      a seen key flags the track when it is close to the baseline, and
      otherwise changes nothing. */
  function Step(st: DedupState, t: Track): (r: DedupState)
    requires HasArtist(t)
    ensures r.baseline.Keys == st.baseline.Keys + {Key(t)}
    ensures forall k :: k in st.baseline ==> r.baseline[k] == st.baseline[k]
    ensures Key(t) !in st.baseline ==> r.baseline[Key(t)] == t
    ensures r.flagged == st.flagged || r.flagged == st.flagged + {t.id}
    ensures t.id !in st.flagged ==>
              (t.id in r.flagged <==>
                 Key(t) in st.baseline && Close(st.baseline[Key(t)].durationMs, t.durationMs))
  {
    var k := Key(t);
    if k !in st.baseline then DedupState(st.baseline[k := t], st.flagged)
    else if Close(st.baseline[k].durationMs, t.durationMs) then DedupState(st.baseline, st.flagged + {t.id})
    else st
  }

  /** The state after the loop has visited every entry of `s`, in order. */
  function Scan(s: seq<Track>): DedupState
    requires AllHaveArtist(s)
  {
    if s == [] then DedupState(map[], {})
    else
      assert s[..|s| - 1] <= s;
      Step(Scan(s[..|s| - 1]), s[|s| - 1])
  }

  // ---------------------------------------------------------------------
  // The declarative account

  /** The index of the first entry of `s` with key `k`, or `|s|` if none. */
  function FirstIndexOf(s: seq<Track>, k: string): (j: nat)
    requires AllHaveArtist(s)
    ensures j <= |s|
    ensures j < |s| ==> Key(s[j]) == k
    ensures forall i :: 0 <= i < j ==> Key(s[i]) != k
  {
    if s == [] then 0
    else if Key(s[0]) == k then 0
    else
      assert forall t :: t in s[1..] ==> t in s;
      1 + FirstIndexOf(s[1..], k)
  }

  /** Entry `i` is flagged: it is not the first entry with its key, and its
      length is within the tolerance of that first entry's. */
  predicate Flagged(s: seq<Track>, i: int)
    requires AllHaveArtist(s)
  {
    0 <= i < |s| &&
    var j := FirstIndexOf(s, Key(s[i]));
    j < i && Close(s[j].durationMs, s[i].durationMs)
  }

  function DuplicateIds(s: seq<Track>): set<string>
    requires AllHaveArtist(s)
  {
    set i | 0 <= i < |s| && Flagged(s, i) :: s[i].id
  }

  lemma {:induction false} FirstIndexOfAppend(a: seq<Track>, b: seq<Track>, k: string)
    requires AllHaveArtist(a + b)
    ensures AllHaveArtist(a) && AllHaveArtist(b)
    ensures FirstIndexOf(a + b, k) ==
              if FirstIndexOf(a, k) < |a| then FirstIndexOf(a, k) else |a| + FirstIndexOf(b, k)
    decreases |a|
  {
    assert forall t :: t in a ==> t in a + b;
    assert forall t :: t in b ==> t in a + b;
    if a == [] {
      assert a + b == b;
    } else if Key(a[0]) != k {
      assert (a + b)[1..] == a[1..] + b;
      FirstIndexOfAppend(a[1..], b, k);
    }
  }

  /** Entries before the end keep their flag when one entry is appended, and
      the appended entry is flagged iff its key has a baseline close to it. */
  lemma DuplicateIdsSnoc(front: seq<Track>, t: Track)
    requires AllHaveArtist(front + [t])
    ensures AllHaveArtist(front) && HasArtist(t)
    ensures DuplicateIds(front + [t]) ==
              DuplicateIds(front) + (if Flagged(front + [t], |front|) then {t.id} else {})
  {
    var s := front + [t];
    var n := |front|;
    assert forall u :: u in front ==> u in s;
    assert t in s;
    forall i | 0 <= i < n ensures Flagged(s, i) == Flagged(front, i) {
      FlaggedKeptBySnoc(front, t, i);
    }
    var extra := if Flagged(s, n) then {t.id} else {};
    forall id | id in DuplicateIds(s) ensures id in DuplicateIds(front) + extra {
      var i :| 0 <= i < |s| && Flagged(s, i) && s[i].id == id;
      if i < n {
        assert front[i].id == id;
      }
    }
    forall id | id in DuplicateIds(front) + extra ensures id in DuplicateIds(s) {
      if id in DuplicateIds(front) {
        var i :| 0 <= i < n && Flagged(front, i) && front[i].id == id;
        assert s[i].id == id;
      } else {
        assert s[n].id == id;
      }
    }
  }

  lemma FlaggedKeptBySnoc(front: seq<Track>, t: Track, i: int)
    requires AllHaveArtist(front + [t]) && 0 <= i < |front|
    ensures AllHaveArtist(front)
    ensures Flagged(front + [t], i) == Flagged(front, i)
  {
    assert forall u :: u in front ==> u in front + [t];
    assert (front + [t])[i] == front[i];
    FirstIndexOfAppend(front, [t], Key(front[i]));
  }

  /** The baseline the pass keeps for key `k` is the key's first entry. */
  lemma {:induction false} ScanBaseline(s: seq<Track>, k: string)
    requires AllHaveArtist(s)
    ensures k in Scan(s).baseline <==> FirstIndexOf(s, k) < |s|
    ensures k in Scan(s).baseline ==> Scan(s).baseline[k] == s[FirstIndexOf(s, k)]
    decreases |s|
  {
    if s != [] {
      var n := |s| - 1;
      var front := s[..n];
      var t := s[n];
      assert s == front + [t];
      assert front <= s;
      ScanBaseline(front, k);
      FirstIndexOfAppend(front, [t], k);
      var st0 := Scan(front);
      assert Scan(s) == Step(st0, t);
      if Key(t) == k && k !in st0.baseline {
        assert FirstIndexOf(s, k) == n;
      }
    }
  }

  /** The pass computes the declarative account: the flagged ids are
      exactly `DuplicateIds`. */
  lemma {:induction false} ScanMatchesSpec(s: seq<Track>)
    requires AllHaveArtist(s)
    ensures Scan(s).flagged == DuplicateIds(s)
    decreases |s|
  {
    if s == [] {
      assert DuplicateIds(s) == {};
    } else {
      var n := |s| - 1;
      var front := s[..n];
      var t := s[n];
      assert s == front + [t];
      assert front <= s;
      ScanMatchesSpec(front);
      ScanBaseline(front, Key(t));
      var st0 := Scan(front);
      FirstIndexOfAppend(front, [t], Key(t));
      DuplicateIdsSnoc(front, t);
      if Key(t) in st0.baseline {
        assert FirstIndexOf(s, Key(t)) == FirstIndexOf(front, Key(t));
      } else {
        assert FirstIndexOf(s, Key(t)) == n;
        assert !Flagged(s, n);
      }
    }
  }

  /** Every baseline is an entry filed under its own key, every entry's key
      has a baseline, and only ids of entries are flagged. */
  lemma ScanContents(s: seq<Track>)
    requires AllHaveArtist(s)
    ensures forall k :: k in Scan(s).baseline ==> Scan(s).baseline[k] in s && Key(Scan(s).baseline[k]) == k
    ensures forall t :: t in s ==> Key(t) in Scan(s).baseline
    ensures Scan(s).flagged <= Ids(s)
  {
  }

  /** The first entry of a key stays its baseline however the snapshot goes on. */
  lemma BaselineNeverReplaced(s: seq<Track>, more: seq<Track>, k: string)
    requires AllHaveArtist(s + more)
    ensures AllHaveArtist(s)
    ensures k in Scan(s).baseline ==>
              k in Scan(s + more).baseline && Scan(s + more).baseline[k] == Scan(s).baseline[k]
  {
    FirstIndexOfAppend(s, more, k);
    ScanBaseline(s, k);
    ScanBaseline(s + more, k);
    if FirstIndexOf(s, k) < |s| {
      assert (s + more)[FirstIndexOf(s, k)] == s[FirstIndexOf(s, k)];
    }
  }

  // ---------------------------------------------------------------------
  // The operation

  /** `find_possible_duplicate_tracks`: `None` (the bare `return`) for a
      disliked playlist; otherwise the ids flagged over its snapshot. */
  function FindPossibleDuplicateTracks(cache: Cache, p: Playlist): (r: Option<set<string>>)
    requires !IsDisliked(p.name) ==> AllHaveArtist(Load(cache, p.name))
    ensures r.None? <==> IsDisliked(p.name)
    ensures r.Some? ==> r.value == DuplicateIds(Load(cache, p.name))
    ensures r.Some? ==> forall id :: id in r.value ==>
              exists i :: 0 <= i < |Load(cache, p.name)| && Load(cache, p.name)[i].id == id &&
                          FirstIndexOf(Load(cache, p.name), Key(Load(cache, p.name)[i])) < i
  {
    if IsDisliked(p.name) then None
    else
      ScanMatchesSpec(Load(cache, p.name));
      Some(Scan(Load(cache, p.name)).flagged)
  }

  // ---------------------------------------------------------------------
  // Consequences

  /** Two entries with the same key: the second is flagged iff the lengths
      are within the tolerance; the first never is. */
  lemma PairWithSameKey(a: Track, b: Track)
    requires HasArtist(a) && HasArtist(b) && Key(a) == Key(b)
    ensures DuplicateIds([a, b]) == if Close(a.durationMs, b.durationMs) then {b.id} else {}
  {
    var s := [a, b];
    assert FirstIndexOf(s, Key(a)) == 0;
    assert !Flagged(s, 0);
    assert Flagged(s, 1) <==> Close(a.durationMs, b.durationMs);
  }

  /** Lengths 10000 and 10001 are flagged; 10000 and 20001 are not. */
  lemma DurationScenarios()
    ensures DuplicateIds([Track("1", "A", ["X"], 10000, ""), Track("2", "A", ["X"], 10001, "")]) == {"2"}
    ensures DuplicateIds([Track("1", "A", ["X"], 10000, ""), Track("2", "A", ["X"], 20001, "")]) == {}
  {
    PairWithSameKey(Track("1", "A", ["X"], 10000, ""), Track("2", "A", ["X"], 10001, ""));
    PairWithSameKey(Track("1", "A", ["X"], 10000, ""), Track("2", "A", ["X"], 20001, ""));
  }

  /** A later entry that was not flagged does not become the baseline: the
      third entry is compared with the first, not with the second it is
      close to. */
  lemma UnflaggedEntryIsNoBaseline(a: Track, b: Track, c: Track)
    requires HasArtist(a) && HasArtist(b) && HasArtist(c)
    requires Key(a) == Key(b) == Key(c)
    requires !Close(a.durationMs, b.durationMs) && !Close(a.durationMs, c.durationMs)
    requires Close(b.durationMs, c.durationMs)
    ensures DuplicateIds([a, b, c]) == {}
  {
  }

  /** A track listed twice is flagged, so the id of a key's first entry can
      be in the result even though that entry itself is never flagged. */
  lemma SameTrackTwice(t: Track)
    requires HasArtist(t)
    ensures DuplicateIds([t, t]) == {t.id}
  {
    PairWithSameKey(t, t);
  }
}
