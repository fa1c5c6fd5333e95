/** The server's tag handlers (server/src/controllers/tag.controller.ts):
    attaching a tag to a playlist by name, detaching it (deleting a tag
    left with no playlist), and the toggling up- and downvotes. The
    transitions of one tag document are functions on Tag values; the
    handlers, which load a tag, edit its arrays and save or delete it, are
    methods of a store object holding the tag collection. */
module TagController {
  import opened Common
  import opened Models
  import opened TrackLists
  import opened TagNames

  /** A user's vote on a tag, read off the two vote lists. */
  datatype VoteState = NoVote | Up | Down

  function VoteOf(t: Tag, u: UserId): VoteState {
    if u in t.upvotes then Up else if u in t.downvotes then Down else NoVote
  }

  /** No vote list holds a user twice and no user is in both lists. */
  ghost predicate VotesConsistent(t: Tag) {
    && NoDups(t.upvotes) && NoDups(t.downvotes)
    && forall u :: u in t.upvotes ==> u !in t.downvotes
  }

  /** The invariant of a stored tag: consistent votes, and attached to at
      least one playlist, each at most once. */
  ghost predicate WellFormed(t: Tag) {
    |t.playlists| > 0 && NoDups(t.playlists) && VotesConsistent(t)
  }

  function NetScore(t: Tag): int {
    |t.upvotes| - |t.downvotes|
  }

  // ---------------------------------------------------------- transitions

  /** An upvote: withdrawn when the user had already upvoted (the
      downvotes are left alone), otherwise added with any downvote of the
      user removed. No other user's votes change. */
  function Upvote(t: Tag, u: UserId): (r: Tag)
    ensures r.name == t.name && r.playlists == t.playlists
    ensures u in r.upvotes <==> u !in t.upvotes
    ensures u in r.downvotes <==> u in t.upvotes && u in t.downvotes
    ensures forall v :: v != u ==> multiset(r.upvotes)[v] == multiset(t.upvotes)[v]
    ensures forall v :: v != u ==> multiset(r.downvotes)[v] == multiset(t.downvotes)[v]
  {
    if u in t.upvotes then
      WithoutCounts(t.upvotes, u);
      assert multiset(Without(t.upvotes, u))[u] == 0;
      t.(upvotes := Without(t.upvotes, u))
    else
      WithoutCounts(t.downvotes, u);
      assert multiset(Without(t.downvotes, u))[u] == 0;
      t.(upvotes := t.upvotes + [u],
         downvotes := if u in t.downvotes then Without(t.downvotes, u) else t.downvotes)
  }

  /** The mirror image of Upvote. */
  function Downvote(t: Tag, u: UserId): (r: Tag)
    ensures r.name == t.name && r.playlists == t.playlists
    ensures u in r.downvotes <==> u !in t.downvotes
    ensures u in r.upvotes <==> u in t.downvotes && u in t.upvotes
    ensures forall v :: v != u ==> multiset(r.upvotes)[v] == multiset(t.upvotes)[v]
    ensures forall v :: v != u ==> multiset(r.downvotes)[v] == multiset(t.downvotes)[v]
  {
    if u in t.downvotes then
      WithoutCounts(t.downvotes, u);
      assert multiset(Without(t.downvotes, u))[u] == 0;
      t.(downvotes := Without(t.downvotes, u))
    else
      WithoutCounts(t.upvotes, u);
      assert multiset(Without(t.upvotes, u))[u] == 0;
      t.(downvotes := t.downvotes + [u],
         upvotes := if u in t.upvotes then Without(t.upvotes, u) else t.upvotes)
  }

  /** A new tag: attached to one playlist and upvoted by its creator. */
  function NewTag(name: string, playlistId: PlaylistId, u: UserId): (r: Tag)
    ensures WellFormed(r)
    ensures r.name == name && r.playlists == [playlistId]
    ensures VoteOf(r, u) == Up && NetScore(r) == 1
    ensures forall v :: v != u ==> VoteOf(r, v) == NoVote
  {
    Tag(name, [playlistId], [u], [])
  }

  /** Attaching an existing tag: the playlist is added when absent, and the
      user gets an upvote only when they have not voted on the tag. */
  function Attach(t: Tag, playlistId: PlaylistId, u: UserId): (r: Tag)
    ensures r.name == t.name && r.downvotes == t.downvotes
    ensures playlistId in r.playlists && t.playlists <= r.playlists
    ensures |r.playlists| <= |t.playlists| + 1
    ensures playlistId in t.playlists ==> r.playlists == t.playlists
    ensures playlistId !in t.playlists ==> r.playlists == t.playlists + [playlistId]
    ensures VoteOf(r, u) == (if VoteOf(t, u) == NoVote then Up else VoteOf(t, u))
    ensures forall v :: v != u ==> VoteOf(r, v) == VoteOf(t, v)
    ensures WellFormed(t) ==> WellFormed(r)
  {
    var r := t.(playlists := AddToSet(t.playlists, playlistId),
                upvotes := if u !in t.upvotes && u !in t.downvotes then t.upvotes + [u] else t.upvotes);
    assert forall v :: v != u ==> (v in r.upvotes <==> v in t.upvotes);
    r
  }

  // ------------------------------------------------------------- lemmas

  /** The vote state machine: an upvote moves to Up, or back to NoVote
      from Up; a downvote moves to Down, or back to NoVote from Down. */
  lemma VoteStateMachine(t: Tag, u: UserId)
    requires !(u in t.upvotes && u in t.downvotes)
    ensures VoteOf(Upvote(t, u), u) == if VoteOf(t, u) == Up then NoVote else Up
    ensures VoteOf(Downvote(t, u), u) == if VoteOf(t, u) == Down then NoVote else Down
  {
  }

  /** Both votes keep a tag's votes consistent. */
  lemma {:induction false} VotesKeepConsistency(t: Tag, u: UserId)
    requires VotesConsistent(t)
    ensures VotesConsistent(Upvote(t, u))
    ensures VotesConsistent(Downvote(t, u))
  {
    var up, down := Upvote(t, u), Downvote(t, u);
    assert u !in t.upvotes ==> multiset(t.upvotes)[u] == 0;
    assert u !in t.downvotes ==> multiset(t.downvotes)[u] == 0;
    assert u in t.upvotes ==> multiset(up.upvotes)[u] == 0;
    assert u in t.downvotes ==> multiset(down.downvotes)[u] == 0;
    forall v | v in up.upvotes ensures v !in up.downvotes {
      if v != u {
        assert multiset(up.upvotes)[v] == multiset(t.upvotes)[v];
        assert multiset(up.downvotes)[v] == multiset(t.downvotes)[v];
      }
    }
    forall v | v in down.upvotes ensures v !in down.downvotes {
      if v != u {
        assert multiset(down.upvotes)[v] == multiset(t.upvotes)[v];
        assert multiset(down.downvotes)[v] == multiset(t.downvotes)[v];
      }
    }
  }

  /** Two upvotes in a row from a user who had not voted leave the tag as
      it was; likewise two downvotes. */
  lemma {:induction false} RepeatedVoteRestores(t: Tag, u: UserId)
    requires u !in t.upvotes && u !in t.downvotes
    ensures Upvote(Upvote(t, u), u) == t
    ensures Downvote(Downvote(t, u), u) == t
  {
    WithoutAppended(t.upvotes, u);
    WithoutAppended(t.downvotes, u);
  }

  /** An upvote followed by a downvote always ends in Down, with the user
      in the downvotes only. */
  lemma UpvoteThenDownvote(t: Tag, u: UserId)
    requires !(u in t.upvotes && u in t.downvotes)
    ensures VoteOf(Downvote(Upvote(t, u), u), u) == Down
    ensures u !in Downvote(Upvote(t, u), u).upvotes
  {
  }

  /** Attaching twice gives what attaching once gives. */
  lemma AttachIdempotent(t: Tag, playlistId: PlaylistId, u: UserId)
    ensures Attach(Attach(t, playlistId, u), playlistId, u) == Attach(t, playlistId, u)
  {
  }

  /** A tag created by one user scores 1; another user's downvote brings
      it to 0; the same downvote again withdraws it, back to 1. */
  lemma RetractedDownvoteScenario(p: PlaylistId)
    ensures NetScore(NewTag("chill", p, "u1")) == 1
    ensures NetScore(Downvote(NewTag("chill", p, "u1"), "u2")) == 0
    ensures Downvote(Downvote(NewTag("chill", p, "u1"), "u2"), "u2") == NewTag("chill", p, "u1")
  {
    RepeatedVoteRestores(NewTag("chill", p, "u1"), "u2");
  }

  // ----------------------------------------------------------- the store

  /** The checks an attach request must pass before any tag is touched:
      a name that normalises to 2..20 characters, a stored playlist and a
      known user. */
  predicate AttachAccepted(name: Option<string>, playlistId: PlaylistId, playlistIds: set<PlaylistId>, user: Option<UserId>) {
    && !Falsy(name) && ValidTagNameLength(NormalizeTagName(name.value))
    && playlistId in playlistIds && user.Some?
  }

  /** The answer of the attach checks, in the handler's order: a missing
      name or one of the wrong length is 400, then an unknown playlist or
      user is 404; a request that passes them all is 201. */
  function AttachStatus(name: Option<string>, playlistId: PlaylistId, playlistIds: set<PlaylistId>, user: Option<UserId>): (s: Status)
    ensures Falsy(name) ==> s == BadRequest
    ensures !Falsy(name) && !ValidTagNameLength(NormalizeTagName(name.value)) ==> s == BadRequest
    ensures (!Falsy(name) && ValidTagNameLength(NormalizeTagName(name.value))
             && (playlistId !in playlistIds || user.None?)) ==> s == NotFound
    ensures s == Created <==> AttachAccepted(name, playlistId, playlistIds, user)
  {
    if Falsy(name) then BadRequest
    else
      var normalizedName := NormalizeTagName(name.value);
      if |normalizedName| < 2 || |normalizedName| > 20 then BadRequest
      else if playlistId !in playlistIds then NotFound
      else if user.None? then NotFound
      else Created
  }

  /** No two stored tags share a name. */
  ghost predicate UniqueNames(tags: map<TagId, Tag>) {
    forall id1, id2 :: id1 in tags && id2 in tags && tags[id1].name == tags[id2].name ==> id1 == id2
  }

  ghost predicate AllWellFormed(tags: map<TagId, Tag>) {
    forall id :: id in tags ==> WellFormed(tags[id])
  }

  /** The collection after attaching the tag named `n` to a playlist: the
      stored tag of that name takes the Attach transition, or a new tag is
      stored under `freshId`. */
  ghost function AttachedTags(tags: map<TagId, Tag>, n: string, playlistId: PlaylistId, u: UserId, freshId: TagId): map<TagId, Tag> {
    if exists id :: id in tags && tags[id].name == n then
      var id :| id in tags && tags[id].name == n;
      tags[id := Attach(tags[id], playlistId, u)]
    else tags[freshId := NewTag(n, playlistId, u)]
  }

  /** With unique names, attaching edits exactly the tag of that name, or
      adds exactly one new tag when there is none; the result is valid and
      the name stays unique. */
  lemma AttachedTagsCases(tags: map<TagId, Tag>, n: string, playlistId: PlaylistId, u: UserId, freshId: TagId)
    requires AllWellFormed(tags) && UniqueNames(tags) && freshId !in tags
    ensures forall id :: id in tags && tags[id].name == n
              ==> AttachedTags(tags, n, playlistId, u, freshId) == tags[id := Attach(tags[id], playlistId, u)]
    ensures (forall id :: id in tags ==> tags[id].name != n)
              ==> AttachedTags(tags, n, playlistId, u, freshId) == tags[freshId := NewTag(n, playlistId, u)]
    ensures var r := AttachedTags(tags, n, playlistId, u, freshId);
            AllWellFormed(r) && UniqueNames(r) && |r| <= |tags| + 1
    ensures exists id :: id in AttachedTags(tags, n, playlistId, u, freshId)
              && AttachedTags(tags, n, playlistId, u, freshId)[id].name == n
  {
    var r := AttachedTags(tags, n, playlistId, u, freshId);
    if exists id :: id in tags && tags[id].name == n {
      var id :| id in tags && tags[id].name == n;
      assert r == tags[id := Attach(tags[id], playlistId, u)];
      assert forall other :: other in tags && tags[other].name == n ==> other == id;
      ReplaceKeepsValid(tags, id, Attach(tags[id], playlistId, u));
      assert id in r && r[id].name == n;
    } else {
      InsertKeepsValid(tags, freshId, NewTag(n, playlistId, u));
      assert freshId in r && r[freshId].name == n;
    }
  }

  /** Replacing a tag by a well-formed one of the same name keeps the
      collection valid. */
  lemma ReplaceKeepsValid(tags: map<TagId, Tag>, id: TagId, t: Tag)
    requires AllWellFormed(tags) && UniqueNames(tags)
    requires id in tags && tags[id].name == t.name && WellFormed(t)
    ensures AllWellFormed(tags[id := t]) && UniqueNames(tags[id := t])
  {
  }

  /** Adding a well-formed tag under a new id and a new name keeps the
      collection valid. */
  lemma InsertKeepsValid(tags: map<TagId, Tag>, id: TagId, t: Tag)
    requires AllWellFormed(tags) && UniqueNames(tags)
    requires id !in tags && WellFormed(t)
    requires forall k :: k in tags ==> tags[k].name != t.name
    ensures AllWellFormed(tags[id := t]) && UniqueNames(tags[id := t])
  {
  }

  /** The tag collection the handlers edit, and the ids of the stored
      playlists, which they only read. */
  class TagStore {
    var tags: map<TagId, Tag>
    var playlistIds: set<PlaylistId>

    /** Every stored tag is well formed and tag names are unique. */
    ghost predicate Valid()
      reads this
    {
      AllWellFormed(tags) && UniqueNames(tags)
    }

    constructor (playlistIds: set<PlaylistId>)
      ensures Valid() && tags == map[] && this.playlistIds == playlistIds
    {
      tags := map[];
      this.playlistIds := playlistIds;
    }

    /** The store half of an accepted attach. */
    method AttachByName(n: string, playlistId: PlaylistId, u: UserId, freshId: TagId)
      requires Valid()
      requires freshId !in tags
      modifies this`tags
      ensures Valid()
      ensures tags == AttachedTags(old(tags), n, playlistId, u, freshId)
    {
      if exists id :: id in tags && tags[id].name == n {
        var id :| id in tags && tags[id].name == n;
        var tag := Attach(tags[id], playlistId, u);
        ReplaceKeepsValid(tags, id, tag);
        AttachedTagsCases(tags, n, playlistId, u, freshId);
        tags := tags[id := tag];
      } else {
        var tag := NewTag(n, playlistId, u);
        InsertKeepsValid(tags, freshId, tag);
        tags := tags[freshId := tag];
      }
    }

    /** POST /playlists/:playlistId/tags. The name must be present and
        normalise to 2..20 characters, then the playlist and the user must
        exist; the tag with that name is attached, or a new one is created
        under `freshId`. */
    method AddTagToPlaylist(playlistId: PlaylistId, name: Option<string>, user: Option<UserId>, freshId: TagId)
      returns (status: Status)
      requires Valid()
      requires freshId !in tags
      modifies this`tags
      ensures Valid()
      ensures Falsy(name) ==> status == BadRequest
      ensures !Falsy(name) && !ValidTagNameLength(NormalizeTagName(name.value)) ==> status == BadRequest
      ensures (!Falsy(name) && ValidTagNameLength(NormalizeTagName(name.value))
               && (playlistId !in playlistIds || user.None?)) ==> status == NotFound
      ensures status == Created <==> AttachAccepted(name, playlistId, playlistIds, user)
      ensures status != Created ==> tags == old(tags)
      ensures status == Created ==>
                tags == AttachedTags(old(tags), NormalizeTagName(name.value), playlistId, user.value, freshId)
    {
      status := AttachStatus(name, playlistId, playlistIds, user);
      if status == Created {
        AttachByName(NormalizeTagName(name.value), playlistId, user.value, freshId);
      }
    }

    /** DELETE /playlists/:playlistId/tags/:tagId. An unknown tag is 404 and
        a tag not attached to the playlist is refused; otherwise the playlist
        is filtered out and the tag is deleted when no playlist remains. */
    method RemoveTagFromPlaylist(playlistId: PlaylistId, tagId: TagId) returns (status: Status)
      requires Valid()
      modifies this`tags
      ensures Valid()
      ensures tagId !in old(tags) ==> status == NotFound && tags == old(tags)
      ensures tagId in old(tags) && playlistId !in old(tags)[tagId].playlists ==> status == BadRequest && tags == old(tags)
      ensures tagId in old(tags) && playlistId in old(tags)[tagId].playlists ==>
                var rest := Without(old(tags)[tagId].playlists, playlistId);
                status == Ok
                && tags == if rest == [] then old(tags) - {tagId} else old(tags)[tagId := old(tags)[tagId].(playlists := rest)]
      ensures tagId in tags ==> playlistId !in tags[tagId].playlists
      ensures tagId in old(tags) && old(tags)[tagId].playlists == [playlistId] ==> tagId !in tags
    {
      if tagId !in tags {
        return NotFound;
      }
      var tag := tags[tagId];
      if playlistId !in tag.playlists {
        return BadRequest;
      }
      WithoutKeepsNoDups(tag.playlists, playlistId);
      WithoutIdempotent(tag.playlists, playlistId);
      if tag.playlists == [playlistId] {
        assert multiset(Without(tag.playlists, playlistId)) == multiset{};
      }
      tag := tag.(playlists := Without(tag.playlists, playlistId));
      if |tag.playlists| == 0 {
        tags := tags - {tagId};
      } else {
        tags := tags[tagId := tag];
      }
      status := Ok;
    }

    /** POST .../tags/:tagId/upvote. An unknown user or tag is 404;
        otherwise the tag takes the Upvote transition. */
    method UpvoteTag(tagId: TagId, user: Option<UserId>) returns (status: Status)
      requires Valid()
      modifies this`tags
      ensures Valid()
      ensures (user.None? || tagId !in old(tags)) ==> status == NotFound && tags == old(tags)
      ensures (user.Some? && tagId in old(tags)) ==>
                status == Ok && tags == old(tags)[tagId := Upvote(old(tags)[tagId], user.value)]
    {
      if user.None? {
        return NotFound;
      }
      if tagId !in tags {
        return NotFound;
      }
      var tag := tags[tagId];
      VotesKeepConsistency(tag, user.value);
      tag := Upvote(tag, user.value);
      tags := tags[tagId := tag];
      status := Ok;
    }

    /** POST .../tags/:tagId/downvote, the mirror image of UpvoteTag. */
    method DownvoteTag(tagId: TagId, user: Option<UserId>) returns (status: Status)
      requires Valid()
      modifies this`tags
      ensures Valid()
      ensures (user.None? || tagId !in old(tags)) ==> status == NotFound && tags == old(tags)
      ensures (user.Some? && tagId in old(tags)) ==>
                status == Ok && tags == old(tags)[tagId := Downvote(old(tags)[tagId], user.value)]
    {
      if user.None? {
        return NotFound;
      }
      if tagId !in tags {
        return NotFound;
      }
      var tag := tags[tagId];
      VotesKeepConsistency(tag, user.value);
      tag := Downvote(tag, user.value);
      tags := tags[tagId := tag];
      status := Ok;
    }

    /** Detaching a tag from its only playlist deletes it, so detaching it
        again finds no tag. */
    method DetachOnlyPlaylistTwice(tagId: TagId, playlistId: PlaylistId) returns (first: Status, second: Status)
      requires Valid() && tagId in tags && tags[tagId].playlists == [playlistId]
      modifies this`tags
      ensures Valid()
      ensures first == Ok && second == NotFound && tagId !in tags
    {
      first := RemoveTagFromPlaylist(playlistId, tagId);
      second := RemoveTagFromPlaylist(playlistId, tagId);
    }
  }
}
