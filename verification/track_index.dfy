/**
 `create_track_hash`: an id-keyed lookup table over a track list.
 */
module TrackIndex {
  import opened Tracks

  /** `ts[i]` is the last entry of `ts` carrying its id. */
  predicate IsLastWithId(ts: seq<Track>, i: int) {
    0 <= i < |ts| && forall j :: i < j < |ts| ==> ts[j].id != ts[i].id
  }

  /** The dict comprehension `{t['id']: t for t in ts}`: entries are inserted
      in list order, so a later track overwrites an earlier one with the same id. */
  function CreateTrackHash(ts: seq<Track>): (h: map<string, Track>)
    ensures h.Keys == Ids(ts)
    ensures forall id :: id in h ==> h[id].id == id && h[id] in ts
    ensures forall i :: IsLastWithId(ts, i) ==> h[ts[i].id] == ts[i]
  {
    if ts == [] then map[]
    else
      var h0 := CreateTrackHash(ts[..|ts| - 1]);
      InsertLast(ts, ts[..|ts| - 1], h0);
      h0[ts[|ts| - 1].id := ts[|ts| - 1]]
  }

  lemma IdsSnoc(front: seq<Track>, last: Track)
    ensures Ids(front + [last]) == Ids(front) + {last.id}
  {
  }

  /** One step of the comprehension: inserting `last` into a table of
      `front` gives a table of `front + [last]`. */
  lemma InsertLast(ts: seq<Track>, front: seq<Track>, h0: map<string, Track>)
    requires |ts| > 0 && front == ts[..|ts| - 1]
    requires h0.Keys == Ids(front)
    requires forall id :: id in h0 ==> h0[id].id == id && h0[id] in front
    requires forall i :: IsLastWithId(front, i) ==> h0[front[i].id] == front[i]
    ensures var h := h0[ts[|ts| - 1].id := ts[|ts| - 1]];
            && h.Keys == Ids(ts)
            && (forall id :: id in h ==> h[id].id == id && h[id] in ts)
            && forall i :: IsLastWithId(ts, i) ==> h[ts[i].id] == ts[i]
  {
    var last := ts[|ts| - 1];
    assert ts == front + [last];
    var h := h0[last.id := last];
    IdsSnoc(front, last);
    assert forall t :: t in front ==> t in ts;
    forall i | IsLastWithId(ts, i) ensures h[ts[i].id] == ts[i] {
      if i < |front| {
        assert ts[i] == front[i];
        assert forall j :: i < j < |front| ==> front[j] == ts[j];
        assert IsLastWithId(front, i);
        assert ts[|ts| - 1] == last;
        assert front[i].id != last.id;
      }
    }
  }

  /** One entry per distinct id. */
  lemma TrackHashSize(ts: seq<Track>)
    ensures |CreateTrackHash(ts)| == |Ids(ts)|
  {
  }
}
