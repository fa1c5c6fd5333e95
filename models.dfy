/** The server's stored records (the mongoose models under server/src/models), without
    timestamps. A collection is a map from document id to record. */
module Models {
  import opened Common

  /** A playlist document: its owner is the owner's public userId and its
      tracklist holds track ids in play order. */
  datatype Playlist = Playlist(title: string, isPublic: bool, owner: UserId, tracklist: seq<TrackId>)

  /** A track document, looked up by its own `trackId` (unique). */
  datatype Track = Track(trackId: TrackId, title: string, artist: string)

  /** A tag document: its normalised name, the playlists it is attached to,
      and the users who voted it up or down. */
  datatype Tag = Tag(name: string, playlists: seq<PlaylistId>, upvotes: seq<UserId>, downvotes: seq<UserId>)
}
