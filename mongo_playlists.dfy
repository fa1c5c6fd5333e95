/** The older playlist store (src/models/mongodb/playlists.mjs), where
    every operation is a MongoDB update on one document of the `playlists`
    collection: $addToSet and $pull on the `tracks` array, $push with
    $position for a move, $set for the public flag. An update whose filter
    matches no document changes nothing, and `matchedCount > 0` is "the id
    is in the collection". */
module MongoPlaylists {
  import opened Common
  import opened TrackLists

  /** A playlist document as the create route stores it: `createdBy` is the
      request's user id, which may be absent, and `tracks` starts empty. */
  datatype PlaylistRecord = PlaylistRecord(name: string, isPublic: bool, createdBy: Option<UserId>, tracks: seq<TrackId>)

  /** The filter of getPlaylists: public, or created by the given user.
      `$eq` on an absent user id matches documents without a creator. */
  predicate Listed(p: PlaylistRecord, userId: Option<UserId>) {
    p.isPublic || p.createdBy == userId
  }

  /** getPlaylists: the documents the filter keeps, each unchanged. */
  function GetPlaylists(docs: map<PlaylistId, PlaylistRecord>, userId: Option<UserId>): (r: map<PlaylistId, PlaylistRecord>)
    ensures forall id :: id in r <==> id in docs && (docs[id].isPublic || docs[id].createdBy == userId)
    ensures forall id :: id in r ==> r[id] == docs[id]
    ensures |r| <= |docs|
  {
    var r := map id | id in docs && Listed(docs[id], userId) :: docs[id];
    assert docs.Keys == r.Keys + (docs.Keys - r.Keys);
    r
  }

  /** A user always sees the playlists they created, whatever their flag. */
  lemma CreatorSeesOwnPlaylists(docs: map<PlaylistId, PlaylistRecord>, u: UserId)
    ensures forall id :: id in docs && docs[id].createdBy == Some(u) ==> id in GetPlaylists(docs, Some(u))
  {
  }

  /** Publishing a playlist lists it for every user; unpublishing it lists
      it for its creator only. */
  lemma {:induction false} PublicFlagDecidesVisibility(docs: map<PlaylistId, PlaylistRecord>, id: PlaylistId, userId: Option<UserId>)
    requires id in docs
    ensures id in GetPlaylists(docs[id := docs[id].(isPublic := true)], userId)
    ensures id in GetPlaylists(docs[id := docs[id].(isPublic := false)], userId) <==> docs[id].createdBy == userId
  {
    var on, off := docs[id := docs[id].(isPublic := true)], docs[id := docs[id].(isPublic := false)];
    assert Listed(on[id], userId);
    assert Listed(off[id], userId) <==> docs[id].createdBy == userId;
  }

  ghost predicate AllNoDups(docs: map<PlaylistId, PlaylistRecord>) {
    forall id :: id in docs ==> NoDups(docs[id].tracks)
  }

  /** The track list of one playlist replaced by a duplicate-free one. */
  lemma ReplaceTracksKeepsNoDups(docs: map<PlaylistId, PlaylistRecord>, id: PlaylistId, tracks: seq<TrackId>)
    requires AllNoDups(docs) && id in docs && NoDups(tracks)
    ensures AllNoDups(docs[id := docs[id].(tracks := tracks)])
  {
  }

  /** The two updates of a move, one after the other, leave the document
      with its track list moved and every other document as it was. */
  lemma MovedTracks(docs: map<PlaylistId, PlaylistRecord>, id: PlaylistId, trackId: TrackId, p: nat)
    requires id in docs
    ensures var pulled := docs[id := docs[id].(tracks := Without(docs[id].tracks, trackId))];
            pulled[id := pulled[id].(tracks := InsertAt(pulled[id].tracks, trackId, p))]
            == docs[id := docs[id].(tracks := Move(docs[id].tracks, trackId, p))]
    ensures AllNoDups(docs) ==> AllNoDups(docs[id := docs[id].(tracks := Move(docs[id].tracks, trackId, p))])
  {
    if AllNoDups(docs) {
      MoveKeepsNoDups(docs[id].tracks, trackId, p);
      ReplaceTracksKeepsNoDups(docs, id, Move(docs[id].tracks, trackId, p));
    }
  }

  /** The `playlists` collection. Every operation keeps each track list
      free of duplicates. */
  class PlaylistsCollection {
    var docs: map<PlaylistId, PlaylistRecord>

    ghost predicate Valid()
      reads this
    {
      AllNoDups(docs)
    }

    constructor ()
      ensures Valid() && docs == map[]
    {
      docs := map[];
    }

    /** addPlaylist, for the record the create route builds (tracks empty);
        `freshId` stands for the id the database generates. */
    method AddPlaylist(freshId: PlaylistId, name: string, isPublic: bool, createdBy: Option<UserId>)
      requires Valid() && freshId !in docs
      modifies this`docs
      ensures Valid()
      ensures docs == old(docs)[freshId := PlaylistRecord(name, isPublic, createdBy, [])]
    {
      docs := docs[freshId := PlaylistRecord(name, isPublic, createdBy, [])];
    }

    /** addTrackToPlaylist: $addToSet on `tracks`; true iff the playlist
        exists. */
    method AddTrackToPlaylist(playlistId: PlaylistId, trackId: TrackId) returns (matched: bool)
      requires Valid()
      modifies this`docs
      ensures Valid()
      ensures matched <==> playlistId in old(docs)
      ensures !matched ==> docs == old(docs)
      ensures matched ==>
                docs == old(docs)[playlistId := old(docs)[playlistId].(tracks := AddToSet(old(docs)[playlistId].tracks, trackId))]
    {
      if playlistId !in docs {
        return false;
      }
      var p := docs[playlistId];
      docs := docs[playlistId := p.(tracks := AddToSet(p.tracks, trackId))];
      matched := true;
    }

    /** removeTrackFromPlaylist: $pull on `tracks`; true iff the playlist
        exists, whether or not the track was in it. */
    method RemoveTrackFromPlaylist(playlistId: PlaylistId, trackId: TrackId) returns (matched: bool)
      requires Valid()
      modifies this`docs
      ensures Valid()
      ensures matched <==> playlistId in old(docs)
      ensures !matched ==> docs == old(docs)
      ensures matched ==>
                docs == old(docs)[playlistId := old(docs)[playlistId].(tracks := Without(old(docs)[playlistId].tracks, trackId))]
    {
      if playlistId !in docs {
        return false;
      }
      var p := docs[playlistId];
      WithoutKeepsNoDups(p.tracks, trackId);
      docs := docs[playlistId := p.(tracks := Without(p.tracks, trackId))];
      matched := true;
    }

    /** moveTrack: two successive updates of the same document, a $pull of
        the track and then a $push of it at `newPosition`. */
    method MoveTrack(playlistId: PlaylistId, trackId: TrackId, newPosition: nat)
      requires Valid()
      modifies this`docs
      ensures Valid()
      ensures playlistId !in old(docs) ==> docs == old(docs)
      ensures playlistId in old(docs) ==>
                docs == old(docs)[playlistId := old(docs)[playlistId].(tracks := Move(old(docs)[playlistId].tracks, trackId, newPosition))]
    {
      ghost var before := docs;
      Pull(playlistId, trackId);
      PushAt(playlistId, trackId, newPosition);
      if playlistId in before {
        MovedTracks(before, playlistId, trackId, newPosition);
      }
    }

    /** `{ $pull: { tracks: trackId } }` on one document. */
    method Pull(playlistId: PlaylistId, trackId: TrackId)
      modifies this`docs
      ensures playlistId !in old(docs) ==> docs == old(docs)
      ensures playlistId in old(docs) ==>
                docs == old(docs)[playlistId := old(docs)[playlistId].(tracks := Without(old(docs)[playlistId].tracks, trackId))]
    {
      if playlistId in docs {
        docs := docs[playlistId := docs[playlistId].(tracks := Without(docs[playlistId].tracks, trackId))];
      }
    }

    /** `{ $push: { tracks: { $each: [trackId], $position: p } } }` on one
        document. */
    method PushAt(playlistId: PlaylistId, trackId: TrackId, p: nat)
      modifies this`docs
      ensures playlistId !in old(docs) ==> docs == old(docs)
      ensures playlistId in old(docs) ==>
                docs == old(docs)[playlistId := old(docs)[playlistId].(tracks := InsertAt(old(docs)[playlistId].tracks, trackId, p))]
    {
      if playlistId in docs {
        docs := docs[playlistId := docs[playlistId].(tracks := InsertAt(docs[playlistId].tracks, trackId, p))];
      }
    }

    /** setIsPublic: $set of the flag, nothing else; true iff the playlist
        exists. */
    method SetIsPublic(playlistId: PlaylistId, isPublic: bool) returns (matched: bool)
      requires Valid()
      modifies this`docs
      ensures Valid()
      ensures matched <==> playlistId in old(docs)
      ensures !matched ==> docs == old(docs)
      ensures matched ==> docs == old(docs)[playlistId := old(docs)[playlistId].(isPublic := isPublic)]
    {
      if playlistId !in docs {
        return false;
      }
      docs := docs[playlistId := docs[playlistId].(isPublic := isPublic)];
      matched := true;
    }

    /** The route sequence "move a track, then list": the moved track is in
        the creator's listing of the playlist exactly once. */
    method MoveThenList(playlistId: PlaylistId, trackId: TrackId, newPosition: nat, u: UserId)
      returns (listed: map<PlaylistId, PlaylistRecord>)
      requires Valid() && playlistId in docs && docs[playlistId].createdBy == Some(u)
      modifies this`docs
      ensures Valid()
      ensures playlistId in listed && multiset(listed[playlistId].tracks)[trackId] == 1
    {
      MoveProperties(docs[playlistId].tracks, trackId, newPosition);
      MoveTrack(playlistId, trackId, newPosition);
      listed := GetPlaylists(docs, Some(u));
    }
  }
}
