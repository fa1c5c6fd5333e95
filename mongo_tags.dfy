/** The older tag store (src/models/mongodb/tags.mjs): a `tags` collection
    of (trackId, tag) records, unique on that pair, each with optional
    lists of up- and downvoting users. A vote moves the user into one list
    and out of the other; it never toggles. */
module MongoTags {
  import opened Common
  import opened TrackLists

  /** A tag record. addTag inserts only the pair, so a vote list is absent
      until the first vote of its kind creates it. */
  datatype TagRecord = TagRecord(trackId: TrackId, tag: string, upvotes: Option<seq<UserId>>, downvotes: Option<seq<UserId>>)

  /** One row of getPositivelyAssociatedTracksByTag: only these three
      fields are projected. */
  datatype TrackScore = TrackScore(trackId: TrackId, upvoteCount: nat, downvoteCount: nat)

  /** `$size` of `$ifNull: [field, []]`. */
  function VoteCount(f: Option<seq<UserId>>): nat {
    |f.GetOr([])|
  }

  /** $addToSet on an optional array field: creates it when absent. */
  function AddToSetField(f: Option<seq<UserId>>, u: UserId): (r: Option<seq<UserId>>)
    ensures r.Some? && u in r.value
    ensures forall v :: v != u ==> (v in r.value <==> v in f.GetOr([]))
    ensures NoDups(f.GetOr([])) ==> NoDups(r.value) && multiset(r.value)[u] == 1
  {
    var s := f.GetOr([]);
    if u !in s then assert multiset(s)[u] == 0; Some(AddToSet(s, u)) else Some(AddToSet(s, u))
  }

  /** $pull on an optional array field: an absent field stays absent. */
  function PullField(f: Option<seq<UserId>>, u: UserId): (r: Option<seq<UserId>>)
    ensures r.None? <==> f.None?
    ensures u !in r.GetOr([])
    ensures forall v :: v != u ==> (v in r.GetOr([]) <==> v in f.GetOr([]))
    ensures NoDups(f.GetOr([])) ==> NoDups(r.GetOr([]))
  {
    if f.None? then None
    else
      WithoutCounts(f.value, u);
      WithoutIdempotent(f.value, u);
      assert forall v :: v != u ==> (v in Without(f.value, u) <==> multiset(Without(f.value, u))[v] > 0);
      Some(Without(f.value, u))
  }

  /** The update of voteForTag on one record: the user is added to the
      list of the vote and pulled from the other; the pair is kept. */
  function CastVote(r: TagRecord, u: UserId, isUpvote: bool): (r': TagRecord)
    ensures r'.trackId == r.trackId && r'.tag == r.tag
    ensures isUpvote ==> u in r'.upvotes.GetOr([]) && u !in r'.downvotes.GetOr([])
    ensures !isUpvote ==> u in r'.downvotes.GetOr([]) && u !in r'.upvotes.GetOr([])
    ensures forall v :: v != u ==> (v in r'.upvotes.GetOr([]) <==> v in r.upvotes.GetOr([]))
    ensures forall v :: v != u ==> (v in r'.downvotes.GetOr([]) <==> v in r.downvotes.GetOr([]))
  {
    if isUpvote then r.(upvotes := AddToSetField(r.upvotes, u), downvotes := PullField(r.downvotes, u))
    else r.(downvotes := AddToSetField(r.downvotes, u), upvotes := PullField(r.upvotes, u))
  }

  /** A vote list may not hold a user twice. */
  ghost predicate VotesNoDups(r: TagRecord) {
    NoDups(r.upvotes.GetOr([])) && NoDups(r.downvotes.GetOr([]))
  }

  /** On duplicate-free lists, the voting user ends up in the chosen list
      exactly once. */
  lemma VoteCountsUserOnce(r: TagRecord, u: UserId, isUpvote: bool)
    requires VotesNoDups(r)
    ensures VotesNoDups(CastVote(r, u, isUpvote))
    ensures isUpvote ==> multiset(CastVote(r, u, isUpvote).upvotes.GetOr([]))[u] == 1
    ensures !isUpvote ==> multiset(CastVote(r, u, isUpvote).downvotes.GetOr([]))[u] == 1
  {
  }

  /** Repeating a vote changes nothing: unlike the server's vote handlers,
      there is no toggle-off. */
  lemma {:induction false} CastVoteIdempotent(r: TagRecord, u: UserId, isUpvote: bool)
    ensures CastVote(CastVote(r, u, isUpvote), u, isUpvote) == CastVote(r, u, isUpvote)
  {
    var s := CastVote(r, u, isUpvote);
    if isUpvote {
      assert u in s.upvotes.value;
      if r.downvotes.Some? {
        WithoutIdempotent(r.downvotes.value, u);
      }
    } else {
      assert u in s.downvotes.value;
      if r.upvotes.Some? {
        WithoutIdempotent(r.upvotes.value, u);
      }
    }
  }

  /** The opposite vote undoes the effect of a vote on the user's standing:
      the last vote cast is the one that counts. */
  lemma LastVoteWins(r: TagRecord, u: UserId, first: bool, second: bool)
    ensures var s := CastVote(CastVote(r, u, first), u, second);
            (u in s.upvotes.GetOr([]) <==> second) && (u in s.downvotes.GetOr([]) <==> !second)
  {
  }

  // ---------------------------------------------------------------- queries

  /** getTagsForTrack: the tag of each record of the track, in collection
      order. */
  function GetTagsForTrack(records: seq<TagRecord>, trackId: TrackId): (r: seq<string>)
    ensures |r| <= |records|
    ensures forall t :: t in r <==> exists i :: 0 <= i < |records| && records[i].trackId == trackId && records[i].tag == t
  {
    if records == [] then []
    else
      var rest := GetTagsForTrack(records[1..], trackId);
      assert forall i :: 1 <= i < |records| ==> records[i] == records[1..][i - 1];
      if records[0].trackId == trackId then [records[0].tag] + rest else rest
  }

  /** The score of a record, with absent lists counted as empty. */
  function Score(r: TagRecord): TrackScore {
    TrackScore(r.trackId, VoteCount(r.upvotes), VoteCount(r.downvotes))
  }

  /** The record belongs to the tag and has strictly more up- than
      downvotes. */
  predicate Positive(r: TagRecord, tagName: string) {
    r.tag == tagName && VoteCount(r.upvotes) > VoteCount(r.downvotes)
  }

  /** getPositivelyAssociatedTracksByTag: the scores of the records of the
      tag with more upvotes than downvotes, in collection order. */
  function PositivelyAssociated(records: seq<TagRecord>, tagName: string): (r: seq<TrackScore>)
    ensures |r| <= |records|
    ensures forall s :: s in r ==> s.upvoteCount > s.downvoteCount
    ensures forall s :: s in r <==> exists i :: 0 <= i < |records| && Positive(records[i], tagName) && s == Score(records[i])
  {
    if records == [] then []
    else
      var rest := PositivelyAssociated(records[1..], tagName);
      assert forall i :: 1 <= i < |records| ==> records[i] == records[1..][i - 1];
      if Positive(records[0], tagName) then [Score(records[0])] + rest else rest
  }

  /** Both queries distribute over the order of the collection: appending
      records appends their results. */
  lemma {:induction false} QueriesAppend(a: seq<TagRecord>, b: seq<TagRecord>, trackId: TrackId, tagName: string)
    ensures GetTagsForTrack(a + b, trackId) == GetTagsForTrack(a, trackId) + GetTagsForTrack(b, trackId)
    ensures PositivelyAssociated(a + b, tagName) == PositivelyAssociated(a, tagName) + PositivelyAssociated(b, tagName)
    decreases |a|
  {
    if a != [] {
      QueriesAppend(a[1..], b, trackId, tagName);
      assert (a + b)[1..] == a[1..] + b;
      assert (a + b)[0] == a[0];
    } else {
      assert a + b == b;
    }
  }

  /** A record with as many upvotes as downvotes, in particular one with no
      votes at all, is not positively associated. */
  lemma TiesExcluded(r: TagRecord, tagName: string)
    requires VoteCount(r.upvotes) == VoteCount(r.downvotes)
    ensures PositivelyAssociated([r], tagName) == []
  {
    assert [r][1..] == [];
  }

  /** The pair (trackId, tag) identifies at most one record: the unique
      index of the collection. */
  ghost predicate UniquePairs(records: seq<TagRecord>) {
    forall i, j :: 0 <= i < j < |records| ==>
      !(records[i].trackId == records[j].trackId && records[i].tag == records[j].tag)
  }

  /** With the unique index, a track never lists the same tag twice. */
  lemma {:induction false} TagsForTrackAreDistinct(records: seq<TagRecord>, trackId: TrackId)
    requires UniquePairs(records)
    ensures NoDups(GetTagsForTrack(records, trackId))
    decreases |records|
  {
    if records != [] {
      var rest := GetTagsForTrack(records[1..], trackId);
      assert UniquePairs(records[1..]) by {
        forall i, j | 0 <= i < j < |records[1..]|
          ensures !(records[1..][i].trackId == records[1..][j].trackId && records[1..][i].tag == records[1..][j].tag) {
          assert records[1..][i] == records[i + 1] && records[1..][j] == records[j + 1];
        }
      }
      TagsForTrackAreDistinct(records[1..], trackId);
      if records[0].trackId == trackId {
        assert records[0].tag !in rest by {
          forall i | 0 <= i < |records[1..]| && records[1..][i].trackId == trackId
            ensures records[1..][i].tag != records[0].tag {
            assert records[1..][i] == records[i + 1];
          }
        }
        assert multiset(rest)[records[0].tag] == 0;
        assert multiset([records[0].tag] + rest) == multiset{records[0].tag} + multiset(rest);
      }
    }
  }

  /** The first index holding the pair, if any (the record updateOne
      picks). */
  function FindPair(records: seq<TagRecord>, trackId: TrackId, tag: string): (r: Option<nat>)
    ensures r.None? <==> forall i :: 0 <= i < |records| ==> !(records[i].trackId == trackId && records[i].tag == tag)
    ensures r.Some? ==> r.value < |records| && records[r.value].trackId == trackId && records[r.value].tag == tag
    ensures r.Some? ==> forall i :: 0 <= i < r.value ==> !(records[i].trackId == trackId && records[i].tag == tag)
  {
    if records == [] then None
    else if records[0].trackId == trackId && records[0].tag == tag then Some(0)
    else
      match FindPair(records[1..], trackId, tag)
      case None =>
        assert forall i :: 1 <= i < |records| ==> records[i] == records[1..][i - 1];
        None
      case Some(k) =>
        assert forall i :: 1 <= i < k + 1 ==> records[i] == records[1..][i - 1];
        Some(k + 1)
  }

  // ----------------------------------------------------------- collection

  /** The `tags` collection, under its unique index on (trackId, tag). */
  class TagsCollection {
    var records: seq<TagRecord>

    ghost predicate Valid()
      reads this
    {
      UniquePairs(records)
    }

    constructor ()
      ensures Valid() && records == []
    {
      records := [];
    }

    /** addTag: inserts the pair without vote lists. A pair already stored
        violates the unique index: the insert fails (`inserted` is false)
        and nothing changes. */
    method AddTag(trackId: TrackId, tag: string) returns (inserted: bool)
      requires Valid()
      modifies this`records
      ensures Valid()
      ensures inserted <==> FindPair(old(records), trackId, tag).None?
      ensures inserted ==> records == old(records) + [TagRecord(trackId, tag, None, None)]
      ensures !inserted ==> records == old(records)
    {
      var found := FindPair(records, trackId, tag);
      if found.Some? {
        return false;
      }
      records := records + [TagRecord(trackId, tag, None, None)];
      inserted := true;
    }

    /** voteForTag: updateOne on the record of the pair, casting the vote;
        when no record matches nothing is created. */
    method VoteForTag(trackId: TrackId, tag: string, userId: UserId, isUpvote: bool)
      requires Valid()
      modifies this`records
      ensures Valid()
      ensures |records| == |old(records)|
      ensures forall i :: 0 <= i < |records| ==>
                records[i] == if old(records)[i].trackId == trackId && old(records)[i].tag == tag
                              then CastVote(old(records)[i], userId, isUpvote)
                              else old(records)[i]
    {
      var found := FindPair(records, trackId, tag);
      if found.Some? {
        var k := found.value;
        records := records[k := CastVote(records[k], userId, isUpvote)];
      }
    }

    /** Adding a tag to a track lists it last among the track's tags, and
        a repeated add changes nothing. */
    method AddTagTwice(trackId: TrackId, tag: string) returns (first: bool, second: bool)
      requires Valid() && FindPair(records, trackId, tag).None?
      modifies this`records
      ensures Valid()
      ensures first && !second
      ensures GetTagsForTrack(records, trackId) == GetTagsForTrack(old(records), trackId) + [tag]
    {
      ghost var before := records;
      first := AddTag(trackId, tag);
      assert records[|before|] == TagRecord(trackId, tag, None, None);
      second := AddTag(trackId, tag);
      QueriesAppend(before, [TagRecord(trackId, tag, None, None)], trackId, "");
      assert [TagRecord(trackId, tag, None, None)][1..] == [];
    }
  }
}
