/** The server's playlist track handlers (server/src/controllers/
    playlist.controller.ts): reading a playlist with its tracks resolved in
    order, and adding, removing and reordering the track ids of a stored
    playlist. A handler loads the playlist document, edits its tracklist
    and saves it; here the collections are maps held by a store object and
    each handler is one sequential step on them. */
module PlaylistController {
  import opened Common
  import opened Models
  import opened TrackLists

  // ------------------------------------------------ reading with tracks

  /** The lookup table the handler reduces the track query's result into:
      each track under its trackId, a later track replacing an earlier one. */
  function TrackMap(found: seq<Track>): (m: map<TrackId, Track>)
    ensures m.Keys == set t | t in found :: t.trackId
    ensures forall id :: id in m ==> m[id] in found && m[id].trackId == id
  {
    if found == [] then map[]
    else
      var last := found[|found| - 1];
      assert found == found[..|found| - 1] + [last];
      TrackMap(found[..|found| - 1])[last.trackId := last]
  }

  /** The playlist's ids looked up in the table in tracklist order, ids
      that resolve to no track being dropped. */
  function OrderedTracks(ids: seq<TrackId>, m: map<TrackId, Track>): seq<Track> {
    if ids == [] then []
    else (if ids[0] in m then [m[ids[0]]] else []) + OrderedTracks(ids[1..], m)
  }

  /** At most one track per id, every track from the table, and every
      resolvable id's track present. */
  lemma {:induction false} OrderedTracksBounds(ids: seq<TrackId>, m: map<TrackId, Track>)
    ensures |OrderedTracks(ids, m)| <= |ids|
    ensures forall k :: 0 <= k < |OrderedTracks(ids, m)| ==> OrderedTracks(ids, m)[k] in m.Values
    ensures forall id :: id in ids && id in m ==> m[id] in OrderedTracks(ids, m)
    decreases |ids|
  {
    if ids != [] {
      OrderedTracksBounds(ids[1..], m);
      var head: seq<Track> := if ids[0] in m then [m[ids[0]]] else [];
      var r := OrderedTracks(ids, m);
      assert r == head + OrderedTracks(ids[1..], m);
      forall k | 0 <= k < |r| ensures r[k] in m.Values {
        if k >= |head| {
          assert r[k] == OrderedTracks(ids[1..], m)[k - |head|];
        }
      }
      forall id | id in ids && id in m ensures m[id] in r {
        if id != ids[0] {
          assert id in ids[1..];
        }
      }
    }
  }

  datatype PlaylistWithTracks = PlaylistWithTracks(playlist: Playlist, tracks: seq<Track>)

  /** The playlist under `playlistId` with its tracks resolved, or 404.
      `tracks` is the track collection keyed by trackId. */
  function GetPlaylistWithTracks(playlists: map<PlaylistId, Playlist>, tracks: map<TrackId, Track>,
                                 playlistId: PlaylistId): (r: Result<PlaylistWithTracks>)
    ensures r.Failure? <==> playlistId !in playlists
    ensures r.Failure? ==> r.status == NotFound
    ensures r.Success? ==> r.value.playlist == playlists[playlistId]
    ensures r.Success? ==> |r.value.tracks| <= |playlists[playlistId].tracklist|
    ensures r.Success? ==> r.value.tracks == OrderedTracks(playlists[playlistId].tracklist, tracks)
  {
    if playlistId !in playlists then Failure(NotFound)
    else
      var p := playlists[playlistId];
      var found := map id | id in tracks && id in p.tracklist :: tracks[id];
      OrderedTracksBounds(p.tracklist, found);
      OrderedTracksAgree(p.tracklist, found, tracks);
      Success(PlaylistWithTracks(p, OrderedTracks(p.tracklist, found)))
  }

  /** Resolution is done id by id, so it distributes over concatenation:
      the resolved list keeps the tracklist's order. */
  lemma {:induction false} OrderedTracksAppend(a: seq<TrackId>, b: seq<TrackId>, m: map<TrackId, Track>)
    ensures OrderedTracks(a + b, m) == OrderedTracks(a, m) + OrderedTracks(b, m)
    decreases |a|
  {
    if a == [] {
      assert a + b == b;
    } else {
      var head: seq<Track> := if a[0] in m then [m[a[0]]] else [];
      assert (a + b)[0] == a[0] && (a + b)[1..] == a[1..] + b;
      calc {
        OrderedTracks(a + b, m);
        head + OrderedTracks(a[1..] + b, m);
        { OrderedTracksAppend(a[1..], b, m); }
        head + (OrderedTracks(a[1..], m) + OrderedTracks(b, m));
        (head + OrderedTracks(a[1..], m)) + OrderedTracks(b, m);
        OrderedTracks(a, m) + OrderedTracks(b, m);
      }
    }
  }

  /** When every id resolves, the result is the tracklist mapped through
      the table, position by position. */
  lemma {:induction false} OrderedTracksAllResolved(ids: seq<TrackId>, m: map<TrackId, Track>)
    requires forall i :: 0 <= i < |ids| ==> ids[i] in m
    ensures |OrderedTracks(ids, m)| == |ids|
    ensures forall k :: 0 <= k < |ids| ==> OrderedTracks(ids, m)[k] == m[ids[k]]
    decreases |ids|
  {
    if ids != [] {
      OrderedTracksAllResolved(ids[1..], m);
    }
  }

  /** A dangling id contributes nothing: dropping it from the tracklist
      does not change the resolved list. */
  lemma {:induction false} OrderedTracksIgnoresDangling(ids: seq<TrackId>, dangling: TrackId, m: map<TrackId, Track>)
    requires dangling !in m
    ensures OrderedTracks(ids, m) == OrderedTracks(Without(ids, dangling), m)
    decreases |ids|
  {
    if ids != [] {
      OrderedTracksIgnoresDangling(ids[1..], dangling, m);
      if ids[0] != dangling {
        OrderedTracksAppend([ids[0]], Without(ids[1..], dangling), m);
        assert [ids[0]][1..] == [];
      }
    }
  }

  /** Two tables that agree on the tracklist's ids resolve it alike. */
  lemma {:induction false} OrderedTracksAgree(ids: seq<TrackId>, m1: map<TrackId, Track>, m2: map<TrackId, Track>)
    requires forall i :: 0 <= i < |ids| ==> (ids[i] in m1 <==> ids[i] in m2)
    requires forall i :: 0 <= i < |ids| && ids[i] in m1 ==> m1[ids[i]] == m2[ids[i]]
    ensures OrderedTracks(ids, m1) == OrderedTracks(ids, m2)
    decreases |ids|
  {
    if ids != [] {
      OrderedTracksAgree(ids[1..], m1, m2);
    }
  }

  /** Whatever order the track query returns its documents in, reducing
      them into a table and resolving the tracklist gives the tracks of the
      collection in tracklist order. */
  lemma QueryOrderIsIrrelevant(ids: seq<TrackId>, tracks: map<TrackId, Track>, found: seq<Track>)
    requires forall id :: id in tracks ==> tracks[id].trackId == id
    requires forall t :: t in found <==> t.trackId in tracks && tracks[t.trackId] == t && t.trackId in ids
    ensures OrderedTracks(ids, TrackMap(found)) == OrderedTracks(ids, tracks)
  {
    var m := TrackMap(found);
    forall i | 0 <= i < |ids| ensures ids[i] in m <==> ids[i] in tracks {
      if ids[i] in tracks {
        assert tracks[ids[i]] in found;
      }
    }
    OrderedTracksAgree(ids, m, tracks);
  }

  // ------------------------------------------------------------ the store

  /** The playlist and track collections the handlers work on. */
  class PlaylistStore {
    var playlists: map<PlaylistId, Playlist>
    var tracks: map<TrackId, Track>

    constructor (playlists: map<PlaylistId, Playlist>, tracks: map<TrackId, Track>)
      ensures this.playlists == playlists && this.tracks == tracks
    {
      this.playlists := playlists;
      this.tracks := tracks;
    }

    /** POST /playlists/:id/tracks. A missing trackId is refused before the
        playlist is read; an unknown playlist or track is 404; a track
        already in the list is refused; otherwise it is appended. */
    method AddTrackToPlaylist(playlistId: PlaylistId, trackId: Option<TrackId>) returns (status: Status)
      modifies this`playlists
      ensures Falsy(trackId) ==> status == BadRequest
      ensures !Falsy(trackId) && playlistId !in old(playlists) ==> status == NotFound
      ensures !Falsy(trackId) && playlistId in old(playlists) && trackId.value !in tracks ==> status == NotFound
      ensures (!Falsy(trackId) && playlistId in old(playlists) && trackId.value in tracks
               && trackId.value in old(playlists)[playlistId].tracklist) ==> status == BadRequest
      ensures status == Ok <==> (!Falsy(trackId) && playlistId in old(playlists) && trackId.value in tracks
                                 && trackId.value !in old(playlists)[playlistId].tracklist)
      ensures status != Ok ==> playlists == old(playlists)
      ensures status == Ok ==>
                var p := old(playlists)[playlistId];
                playlists == old(playlists)[playlistId := p.(tracklist := p.tracklist + [trackId.value])]
      ensures playlists.Keys == old(playlists).Keys
      ensures (playlistId in old(playlists) && NoDups(old(playlists)[playlistId].tracklist))
              ==> NoDups(playlists[playlistId].tracklist)
    {
      if Falsy(trackId) {
        return BadRequest;
      }
      if playlistId !in playlists {
        return NotFound;
      }
      var playlist := playlists[playlistId];
      if trackId.value !in tracks {
        return NotFound;
      }
      if trackId.value in playlist.tracklist {
        return BadRequest;
      }
      ghost var before := playlist.tracklist;
      playlist := playlist.(tracklist := playlist.tracklist + [trackId.value]);
      assert playlist.tracklist == AddToSet(before, trackId.value);
      playlists := playlists[playlistId := playlist];
      status := Ok;
    }

    /** DELETE /playlists/:id/tracks/:trackId. Every occurrence of the id is
        filtered out; an id that is not in the list is no error. */
    method RemoveTrackFromPlaylist(playlistId: PlaylistId, trackId: TrackId) returns (status: Status)
      modifies this`playlists
      ensures playlistId !in old(playlists) ==> status == NotFound && playlists == old(playlists)
      ensures playlistId in old(playlists) ==>
                var p := old(playlists)[playlistId];
                status == Ok && playlists == old(playlists)[playlistId := p.(tracklist := Without(p.tracklist, trackId))]
      ensures playlists.Keys == old(playlists).Keys
      ensures playlistId in old(playlists) ==> trackId !in playlists[playlistId].tracklist
    {
      if playlistId !in playlists {
        return NotFound;
      }
      var playlist := playlists[playlistId];
      playlist := playlist.(tracklist := Without(playlist.tracklist, trackId));
      WithoutIdempotent(old(playlists)[playlistId].tracklist, trackId);
      playlists := playlists[playlistId := playlist];
      status := Ok;
    }

    /** PUT /playlists/:id/tracks/reorder. A missing list is refused before
        the playlist is read; the submitted list replaces the stored one
        when it has the same length and only ids already in the playlist. */
    method ReorderPlaylistTracks(playlistId: PlaylistId, tracklist: Option<seq<TrackId>>) returns (status: Status)
      modifies this`playlists
      ensures tracklist.None? ==> status == BadRequest
      ensures tracklist.Some? && playlistId !in old(playlists) ==> status == NotFound
      ensures (tracklist.Some? && playlistId in old(playlists))
              ==> (status == Ok <==> SameTracks(old(playlists)[playlistId].tracklist, tracklist.value))
      ensures status == Ok || status == BadRequest || status == NotFound
      ensures status != Ok ==> playlists == old(playlists)
      ensures status == Ok ==>
                tracklist.Some? && playlistId in old(playlists)
                && playlists == old(playlists)[playlistId := old(playlists)[playlistId].(tracklist := tracklist.value)]
    {
      if tracklist.None? {
        return BadRequest;
      }
      if playlistId !in playlists {
        return NotFound;
      }
      var playlist := playlists[playlistId];
      var allTracksExist := forall i :: 0 <= i < |tracklist.value| ==> tracklist.value[i] in playlist.tracklist;
      var sameLength := |tracklist.value| == |playlist.tracklist|;
      if !allTracksExist || !sameLength {
        return BadRequest;
      }
      playlist := playlist.(tracklist := tracklist.value);
      playlists := playlists[playlistId := playlist];
      status := Ok;
    }

    /** Adding the same track twice: the second call is always refused, and
        when the first one succeeded it is refused as a duplicate. */
    method AddTrackTwice(playlistId: PlaylistId, trackId: TrackId) returns (first: Status, second: Status)
      modifies this`playlists
      ensures first == Ok ==> second == BadRequest
      ensures second != Ok
      ensures playlists.Keys == old(playlists).Keys
      ensures playlistId in old(playlists) ==>
                |playlists[playlistId].tracklist| == |old(playlists)[playlistId].tracklist| + (if first == Ok then 1 else 0)
    {
      first := AddTrackToPlaylist(playlistId, Some(trackId));
      second := AddTrackToPlaylist(playlistId, Some(trackId));
    }

    /** Removing the same track twice: both calls answer alike and the second
        changes nothing. */
    method RemoveTrackTwice(playlistId: PlaylistId, trackId: TrackId) returns (first: Status, second: Status)
      modifies this`playlists
      ensures first == second
      ensures playlists.Keys == old(playlists).Keys
      ensures playlistId in old(playlists) ==>
                first == Ok && playlists[playlistId].tracklist == Without(old(playlists)[playlistId].tracklist, trackId)
    {
      first := RemoveTrackFromPlaylist(playlistId, trackId);
      second := RemoveTrackFromPlaylist(playlistId, trackId);
      if playlistId in old(playlists) {
        WithoutIdempotent(old(playlists)[playlistId].tracklist, trackId);
      }
    }
  }
}
