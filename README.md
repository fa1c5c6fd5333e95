# Playlist tracks, tags and votes — a Dafny model

This project models the logic at the centre of a playlist-sharing web
application (an Express/Mongoose server and an older MongoDB-driver
revision of the same store). Three pieces of logic are modelled:

- **Track lists.** A playlist holds an ordered list of track ids. The server
  controller adds a track (refusing duplicates), removes every occurrence of
  a track, accepts a reorder after a length-and-membership check, and reads
  a playlist back with its track ids resolved to tracks in list order.
  The older store does the same with MongoDB update operators: `$addToSet`,
  `$pull`, and `$push` with `$position`. It also has `moveTrack`, which pulls
  a track and pushes it back at a position, and `getPlaylists`, which lists
  public playlists and the caller's own.
- **Tags and votes.** The server attaches a tag to a playlist by its
  normalised name (lower-cased, trimmed, 2 to 20 characters). A new tag gets
  an automatic upvote from its creator. Detaching a tag from its last
  playlist deletes the tag. Upvote and downvote toggle over two lists of
  user ids. The older store keeps (track, tag) records under a unique index.
  Its vote moves a user into one list and out of the other, with no toggle.
  Its "positively associated" query keeps records with more up- than
  downvotes.
- **The access gate.** `canAccessPlaylist` decides whether a request on a
  playlist goes on to its handler or is answered 404, 401 or 403.
  `checkPermissions` requires every listed permission.

Document collections are held in a class whose methods are the handlers.
They are maps from id to record, except the driver revision's `tags`
collection (`MongoTags.TagsCollection`): its records have no id of their
own, so it is a sequence in collection order, searched by
(trackId, tag) pair. Each handler is one sequential step on that map.
Pure parts are functions: id-list operations, vote transitions, tag name
normalisation, the access decision and the read queries.

Files:
- `common.dfy`: Option, Result, the HTTP statuses, and JavaScript falsiness of an optional string.
- `track_lists.dfy`: filter/`$pull`, `$addToSet`, `$push` at a position, move, and the reorder check.
- `models.dfy`: the server's Playlist, Track and Tag records.
- `playlist_controller.dfy`, `tag_names.dfy`, `tag_controller.dfy`, `auth_middleware.dfy`: the server.
- `mongo_playlists.dfy`, `mongo_tags.dfy`: the MongoDB-driver revision.

Behaviour of the code worth knowing, all of it modelled as written:
- The same access gate guards the read routes and the write routes (update, delete, add, remove and reorder tracks; server/src/routes/playlist.routes.ts:27-37). The gate passes a public playlist for every caller, so any authenticated user may edit a public playlist (`PublicPlaylistOpenToEveryCaller`).
- A duplicate track add is answered 400 and a successful add 200.
- The reorder check tests only the length and that each submitted id is in the stored list. That is a permutation test only for duplicate-free lists (`ReorderCheckIsPermutation`). A list with a repeated id gets through and drops a track (`ReorderCheckAdmitsRepeats`).
- `moveTrack` issues two separate updates, a pull and then a push; the model runs them one after the other.

## Model

| member | source | states |
|---|---|---|
| TrackLists.WithoutCounts | server/src/controllers/playlist.controller.ts:248 | removes every occurrence of the id; every other id keeps its count; an absent id leaves the list as it is |
| TrackLists.WithoutIsSubseq | server/src/controllers/playlist.controller.ts:248 | the filtered list is a subsequence of the original: relative order is kept |
| TrackLists.WithoutAppend | server/src/controllers/playlist.controller.ts:248 | filtering distributes over concatenation |
| TrackLists.WithoutIdempotent | server/src/controllers/playlist.controller.ts:248 | no occurrence is left, and filtering again changes nothing |
| TrackLists.WithoutAppended | server/src/controllers/playlist.controller.ts:221 | pulling an id just appended to a list without it gives the list back |
| TrackLists.WithoutKeepsNoDups | server/src/controllers/playlist.controller.ts:248 | filtering keeps a duplicate-free list duplicate-free |
| TrackLists.AddToSet | src/models/mongodb/playlists.mjs:14 | the id is present afterwards; the old list is a prefix; at most one element is added, and only when the id was absent; duplicate-freedom is kept |
| TrackLists.AddToSetIdempotent | src/models/mongodb/playlists.mjs:14 | a second $addToSet of the same id changes nothing |
| TrackLists.InsertAt | src/models/mongodb/playlists.mjs:24 | the id is inserted at the position, or at the end when the position is past it; removing it there gives the old list; one more occurrence of the id |
| TrackLists.WithoutInsertAt | src/models/mongodb/playlists.mjs:23-24 | pulling an id just pushed into a list without it gives the list back, wherever it was pushed |
| TrackLists.MoveProperties | src/models/mongodb/playlists.mjs:23-24 | after a move the id occurs exactly once, sits at the position (or at the end), and the other ids keep their counts and order |
| TrackLists.MoveKeepsNoDups | src/models/mongodb/playlists.mjs:23-24 | a move keeps a duplicate-free list duplicate-free |
| TrackLists.MoveOfPresentIsPermutation | src/models/mongodb/playlists.mjs:23-24 | moving an id that occurs once permutes the list |
| TrackLists.MoveOfAbsentInserts | src/models/mongodb/playlists.mjs:23-24 | moving an id that is not in the list inserts it |
| TrackLists.MoveExample | src/models/mongodb/playlists.mjs:23-24 | [A, B, C] with B moved to 0 is [B, A, C] |
| TrackLists.ReorderAcceptsPermutations | server/src/controllers/playlist.controller.ts:281-288 | every permutation of the stored list passes the reorder check |
| TrackLists.ReorderRejectsLengthChange | server/src/controllers/playlist.controller.ts:283-285 | a list of another length fails the check |
| TrackLists.ReorderCheckIsPermutation | server/src/controllers/playlist.controller.ts:281-288 | for duplicate-free lists the check passes exactly for permutations |
| TrackLists.ReorderCheckAdmitsRepeats | server/src/controllers/playlist.controller.ts:281-288 | the check passes ["a","a"] against ["a","b"], which is no permutation |
| PlaylistController.TrackMap | server/src/controllers/playlist.controller.ts:79-82 | the table's keys are exactly the found tracks' ids, each mapped to a found track with that id |
| PlaylistController.OrderedTracksBounds | server/src/controllers/playlist.controller.ts:85 | at most as many tracks as ids, all from the table, and every resolvable id's track is present |
| PlaylistController.GetPlaylistWithTracks | server/src/controllers/playlist.controller.ts:64-97 | 404 iff the playlist is absent; otherwise the playlist itself and its tracklist resolved against the track collection (`OrderedTracks`): resolvable ids in tracklist order, dangling ids dropped |
| PlaylistController.OrderedTracksAppend | server/src/controllers/playlist.controller.ts:85 | resolution distributes over concatenation, so tracklist order is kept |
| PlaylistController.OrderedTracksAllResolved | server/src/controllers/playlist.controller.ts:85 | when every id resolves, the result maps the tracklist position by position |
| PlaylistController.OrderedTracksIgnoresDangling | server/src/controllers/playlist.controller.ts:85 | a dangling id contributes nothing |
| PlaylistController.OrderedTracksAgree | server/src/controllers/playlist.controller.ts:79-85 | tables that agree on the tracklist's ids resolve it alike |
| PlaylistController.QueryOrderIsIrrelevant | server/src/controllers/playlist.controller.ts:76-85 | whatever order the track query returns, the result is the collection's tracks in tracklist order |
| PlaylistController.PlaylistStore.AddTrackToPlaylist | server/src/controllers/playlist.controller.ts:187-230 | 400 for a missing id before any lookup, 404 for an unknown playlist or track, 400 for a duplicate, all without change; success iff every check passes, and then the id is appended; no duplicate is introduced |
| PlaylistController.PlaylistStore.RemoveTrackFromPlaylist | server/src/controllers/playlist.controller.ts:233-257 | 404 without change for an unknown playlist; otherwise success with every occurrence filtered out, also when the id was absent |
| PlaylistController.PlaylistStore.ReorderPlaylistTracks | server/src/controllers/playlist.controller.ts:260-300 | 400 for a missing list, 404 for an unknown playlist; success iff the length-and-membership check holds, and then exactly the submitted list is stored; no change otherwise |
| PlaylistController.PlaylistStore.AddTrackTwice | server/src/controllers/playlist.controller.ts:215-221 | a second add of the same track is always refused, as a duplicate after a successful first add |
| PlaylistController.PlaylistStore.RemoveTrackTwice | server/src/controllers/playlist.controller.ts:248 | removing twice answers alike and leaves what removing once leaves |
| TagNames.LowerChar | server/src/controllers/tag.controller.ts:35 | the result is never an upper-case letter, and whitespace stays whitespace |
| TagNames.LowerCharMapsLetters | server/src/controllers/tag.controller.ts:35 | an upper-case ASCII letter becomes the lower-case letter at the same place in the alphabet; every other character is kept |
| TagNames.ToLowerPointwise | server/src/controllers/tag.controller.ts:35 | lower-casing a string lower-cases each character in place |
| TagNames.LeadingWhitespace | server/src/controllers/tag.controller.ts:35 | the count covers only whitespace and stops at the first other character |
| TagNames.TrailingWhitespace | server/src/controllers/tag.controller.ts:35 | the count covers only whitespace and stops at the last other character |
| TagNames.TrimStart | server/src/controllers/tag.controller.ts:35 | a suffix of the input whose dropped prefix is all whitespace and which does not start with whitespace |
| TagNames.TrimEnd | server/src/controllers/tag.controller.ts:35 | a prefix of the input whose dropped suffix is all whitespace and which does not end with whitespace |
| TagNames.NormalizeTagName | server/src/controllers/tag.controller.ts:35 | no upper-case letter, and no longer than the input |
| TagNames.NormalizeIsLoweredSlice | server/src/controllers/tag.controller.ts:35 | the normalised name is a slice of the lower-cased name, and every character of the name outside that slice is whitespace; with `NormalizedIsTrimmed` this determines the result |
| TagNames.NormalizedIsTrimmed | server/src/controllers/tag.controller.ts:35 | a normalised name neither starts nor ends with whitespace |
| TagNames.TrimOfTrimmed | server/src/controllers/tag.controller.ts:35 | trimming a string without outer whitespace changes nothing |
| TagNames.NormalizeIdempotent | server/src/controllers/tag.controller.ts:35 | normalising a normalised name changes nothing |
| TagController.Upvote | server/src/controllers/tag.controller.ts:145-158 | the user's upvote is toggled; their downvote is removed only when newly upvoting; no other user's counts change |
| TagController.Downvote | server/src/controllers/tag.controller.ts:190-203 | the mirror image of Upvote |
| TagController.NewTag | server/src/controllers/tag.controller.ts:59-66 | one playlist; the creator's upvote is the only vote, so the net score is 1; well formed |
| TagController.Attach | server/src/controllers/tag.controller.ts:67-77 | an attached playlist leaves the list as it is, an unattached one is appended; a user without a vote gets an upvote; an existing vote, including a downvote, is kept; other users unchanged; well-formedness kept |
| TagController.VoteStateMachine | server/src/controllers/tag.controller.ts:144-203 | upvote: Up goes to none, anything else to Up; downvote likewise with Down |
| TagController.VotesKeepConsistency | server/src/controllers/tag.controller.ts:150-156 | both votes keep the lists duplicate-free and disjoint |
| TagController.RepeatedVoteRestores | server/src/controllers/tag.controller.ts:145-158 | two upvotes (or two downvotes) in a row from a user without a vote restore the tag |
| TagController.UpvoteThenDownvote | server/src/controllers/tag.controller.ts:145-203 | an upvote then a downvote always ends in a downvote only |
| TagController.AttachIdempotent | server/src/controllers/tag.controller.ts:69-76 | attaching twice gives what attaching once gives |
| TagController.RetractedDownvoteScenario | server/src/controllers/tag.controller.ts:190-203 | a new tag scores 1; another user's downvote makes 0; repeating it withdraws it |
| TagController.AttachedTagsCases | server/src/controllers/tag.controller.ts:56-79 | with unique names, attach edits exactly the tag of that name or adds exactly one new tag; validity and name uniqueness are kept |
| TagController.TagStore.AttachByName | server/src/controllers/tag.controller.ts:56-79 | the collection becomes the attach result and stays valid |
| TagController.AttachStatus | server/src/controllers/tag.controller.ts:29-55 | a missing name or one that does not normalise to 2..20 characters is 400; then an unknown playlist or user is 404; 201 exactly when every check passes |
| TagController.TagStore.AddTagToPlaylist | server/src/controllers/tag.controller.ts:23-86 | 400 for a missing name or a normalised length outside 2..20, then 404 for an unknown playlist or user, all without change; created iff every check passes, with the named tag attached or a new one stored |
| TagController.TagStore.RemoveTagFromPlaylist | server/src/controllers/tag.controller.ts:89-122 | 404 for an unknown tag, 400 when not attached, both without change; otherwise the playlist is gone and a tag left without playlists is deleted |
| TagController.TagStore.UpvoteTag | server/src/controllers/tag.controller.ts:125-167 | 404 without change for an unknown user or tag; otherwise the tag takes the Upvote transition, keeping the store valid |
| TagController.TagStore.DownvoteTag | server/src/controllers/tag.controller.ts:170-212 | 404 without change for an unknown user or tag; otherwise the tag takes the Downvote transition |
| TagController.TagStore.DetachOnlyPlaylistTwice | server/src/controllers/tag.controller.ts:94-117 | detaching a tag from its only playlist deletes it, so a second detach is 404 |
| AuthMiddleware.CanAccessPlaylist | server/src/middleware/auth.middleware.ts:17-80 | passes iff there is no playlist id or the playlist exists and is public or owned by the caller; 404 iff the playlist is absent or a private one's caller has no user record; 401 iff a private one has no caller; 403 iff a private one's caller is not its owner |
| AuthMiddleware.PublicPlaylistOpenToEveryCaller | server/src/middleware/auth.middleware.ts:40-44 | a public playlist passes for every caller, the same as for an anonymous one |
| AuthMiddleware.PrivatePlaylistOnlyForOwner | server/src/middleware/auth.middleware.ts:46-75 | whoever passes on a private playlist has a user record whose id is the owner |
| AuthMiddleware.VerdictIgnoresContents | server/src/middleware/auth.middleware.ts:31-75 | the verdict depends on the playlist only through its flag and owner |
| AuthMiddleware.HasAll | server/src/middleware/auth.middleware.ts:87-89 | true iff every required permission is held |
| AuthMiddleware.CheckPermissions | server/src/middleware/auth.middleware.ts:83-96 | passes iff every required permission is in the list, a missing list counting as empty; 403 otherwise; an empty requirement always passes |
| AuthMiddleware.PermissionsMonotone | server/src/middleware/auth.middleware.ts:85-95 | holding more permissions never turns a pass into a refusal |
| AuthMiddleware.RequirementOrderIrrelevant | server/src/middleware/auth.middleware.ts:87-89 | only the set of required permissions matters |
| MongoPlaylists.GetPlaylists | src/models/mongodb/playlists.mjs:39-48 | exactly the playlists that are public or created by the user, each unchanged |
| MongoPlaylists.CreatorSeesOwnPlaylists | src/models/mongodb/playlists.mjs:42-47 | a user's own playlists are always listed for them |
| MongoPlaylists.PublicFlagDecidesVisibility | src/models/mongodb/playlists.mjs:33-47 | after setting the flag, a public playlist is listed for everyone and a private one only for its creator |
| MongoPlaylists.MovedTracks | src/models/mongodb/playlists.mjs:23-24 | the pull followed by the push is the move of the one document, and keeps duplicate-freedom |
| MongoPlaylists.PlaylistsCollection.AddPlaylist | src/models/mongodb/playlists.mjs:6-10 | stores the new document under a fresh id with an empty track list |
| MongoPlaylists.PlaylistsCollection.AddTrackToPlaylist | src/models/mongodb/playlists.mjs:12-16 | true iff the playlist exists; then $addToSet of the id; otherwise nothing changes |
| MongoPlaylists.PlaylistsCollection.RemoveTrackFromPlaylist | src/models/mongodb/playlists.mjs:27-31 | true iff the playlist exists, even for an absent track; then every occurrence is pulled |
| MongoPlaylists.PlaylistsCollection.MoveTrack | src/models/mongodb/playlists.mjs:18-25 | an existing playlist's list becomes the move of the track; nothing else changes; lists stay duplicate-free |
| MongoPlaylists.PlaylistsCollection.Pull | src/models/mongodb/playlists.mjs:23 | one $pull on one document, nothing else changes |
| MongoPlaylists.PlaylistsCollection.PushAt | src/models/mongodb/playlists.mjs:24 | one $push at a position on one document, nothing else changes |
| MongoPlaylists.PlaylistsCollection.SetIsPublic | src/models/mongodb/playlists.mjs:33-37 | true iff the playlist exists; only its flag changes |
| MongoPlaylists.PlaylistsCollection.MoveThenList | src/models/mongodb/playlists.mjs:18-48 | after a move the creator's listing shows the track exactly once in that playlist |
| MongoTags.AddToSetField | src/models/mongodb/tags.mjs:19 | the field exists and holds the user; other users unchanged; once when the list had no duplicates |
| MongoTags.PullField | src/models/mongodb/tags.mjs:20 | an absent field stays absent; the user is gone; other users unchanged |
| MongoTags.CastVote | src/models/mongodb/tags.mjs:18-21 | the user is in the voted list and not in the other; the pair and other users are unchanged |
| MongoTags.VoteCountsUserOnce | src/models/mongodb/tags.mjs:19-20 | on duplicate-free lists the user is in the voted list exactly once |
| MongoTags.CastVoteIdempotent | src/models/mongodb/tags.mjs:19-20 | repeating a vote changes nothing: there is no toggle-off |
| MongoTags.LastVoteWins | src/models/mongodb/tags.mjs:18-21 | after two votes the user stands where the second vote put them |
| MongoTags.GetTagsForTrack | src/models/mongodb/tags.mjs:5-8 | a tag is listed iff some record of the track carries it; no more results than records |
| MongoTags.PositivelyAssociated | src/models/mongodb/tags.mjs:24-48 | exactly the scores of the tag's records with more upvotes than downvotes, absent lists counting as empty |
| MongoTags.QueriesAppend | src/models/mongodb/tags.mjs:5-48 | both queries keep collection order |
| MongoTags.TiesExcluded | src/models/mongodb/tags.mjs:36-38 | a record with equal counts, such as one without votes, is not returned |
| MongoTags.TagsForTrackAreDistinct | src/models/mongodb/initDb.mjs:5 | under the unique index a track never lists a tag twice |
| MongoTags.FindPair | src/models/mongodb/tags.mjs:18 | the first record holding the pair, or none iff no record holds it |
| MongoTags.TagsCollection.AddTag | src/models/mongodb/tags.mjs:10-13 | inserted iff the pair is new, then appended without vote lists; a duplicate pair fails and changes nothing |
| MongoTags.TagsCollection.VoteForTag | src/models/mongodb/tags.mjs:15-22 | the record of the pair takes the vote; every other record is unchanged; no record is created |
| MongoTags.TagsCollection.AddTagTwice | src/models/mongodb/initDb.mjs:5 | a second add of the same pair fails, and the track's tags gain the tag once, at the end |

## Left out

- The React client, JWT validation, the database connection, Express routing and the other CRUD handlers (create, update, delete and list playlists; users; tracks; playlist tag listing). These are UI, a foreign library, I/O or plain field copies.
- Races. The controllers read a document and save it in two round trips, and `moveTrack` issues two updates. Every operation is modelled as one sequential step, so lost updates are not captured.
- Errors thrown by the database (status 500), invalid ObjectId strings, and request bodies of the wrong type. The JavaScript falsiness tests are modelled on optional strings: absent or empty.
- Ids the database generates, and the Auth0-to-user lookup. A fresh id is a parameter. The caller of the tag handlers is an already-resolved optional user id; the gate keeps the two-step lookup because 401 and 404 differ there.
- TagController.TagStore.AddTagToPlaylist: the case-insensitive regular-expression lookup is modelled as equality on the normalised name, so regular-expression metacharacters in a name are not modelled.
- TagNames.NormalizeTagName: its own contract states only the absence of upper-case letters and the length bound. The slice characterisation is the lemma `NormalizeIsLoweredSlice`, kept out of the contract so that callers do not carry it.
- TagNames.LowerChar: its own contract states only that no upper-case letter comes out and that whitespace is kept. The letter mapping is the lemma `LowerCharMapsLetters`; likewise `ToLower` states only its length, and the per-character fact is `ToLowerPointwise`.
- TagNames.NormalizeTagName: lower-casing covers ASCII letters only; JavaScript's full Unicode case mapping is not modelled. Lengths count characters, not UTF-16 code units.
- The server's Tag schema declares no `playlists` path although the controller reads and writes one. The model follows the controller and gives the tag record that field.
- Timestamps, and the sort and limit of listing queries. `GetPlaylists` returns a map, so the order of its results is not modelled.
- MongoPlaylists.PlaylistsCollection.MoveTrack: only non-negative positions are modelled; MongoDB's negative `$position`, counted from the end, is not.
- MongoTags.TagsCollection.VoteForTag: the user id is a string; a request without a user id, which would vote as null, is not modelled.
- A track id that is a key of JavaScript's object prototype, which the lookup table of `getPlaylistWithTracks` would misread.
