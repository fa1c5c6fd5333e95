/** The server's access gate for playlist routes and its permission check
    (server/src/middleware/auth.middleware.ts). Both are decisions without
    side effects: a verdict says whether the request goes on to the next
    handler or is answered with an error status. The token's subject
    (`auth0Id`) is an input, already extracted by the JWT library, and the
    user collection is a map from Auth0 id to public user id. */
module AuthMiddleware {
  import opened Common
  import opened Models

  datatype Verdict = Next | Reject(status: Status)

  /** The caller's public user id: none without a token subject or without
      a user record for it. */
  function CallerId(auth0Id: Option<Auth0Id>, users: map<Auth0Id, UserId>): Option<UserId> {
    if Falsy(auth0Id) || auth0Id.value !in users then None else Some(users[auth0Id.value])
  }

  /** The access rule the gate implements: public playlists are open to
      everyone, private ones to their owner only. */
  predicate MayAccess(p: Playlist, caller: Option<UserId>) {
    p.isPublic || caller == Some(p.owner)
  }

  /** canAccessPlaylist. The tests run in this order: no playlist id passes
      at once; an unknown playlist is 404; a public playlist passes; a
      private one needs a token subject (401), a user record for it (404)
      and that user to be the owner (403). */
  function CanAccessPlaylist(playlistId: Option<PlaylistId>, playlists: map<PlaylistId, Playlist>,
                             auth0Id: Option<Auth0Id>, users: map<Auth0Id, UserId>): (v: Verdict)
    ensures v == Next <==>
              Falsy(playlistId)
              || (playlistId.value in playlists && MayAccess(playlists[playlistId.value], CallerId(auth0Id, users)))
    ensures v == Reject(NotFound) <==>
              && !Falsy(playlistId)
              && (|| playlistId.value !in playlists
                  || (!playlists[playlistId.value].isPublic && !Falsy(auth0Id) && auth0Id.value !in users))
    ensures v == Reject(Unauthorized) <==>
              && !Falsy(playlistId) && playlistId.value in playlists
              && !playlists[playlistId.value].isPublic && Falsy(auth0Id)
    ensures v == Reject(Forbidden) <==>
              && !Falsy(playlistId) && playlistId.value in playlists
              && !playlists[playlistId.value].isPublic
              && CallerId(auth0Id, users).Some? && CallerId(auth0Id, users).value != playlists[playlistId.value].owner
    ensures v in {Next, Reject(NotFound), Reject(Unauthorized), Reject(Forbidden)}
  {
    if Falsy(playlistId) then Next
    else if playlistId.value !in playlists then Reject(NotFound)
    else
      var playlist := playlists[playlistId.value];
      if playlist.isPublic then Next
      else if Falsy(auth0Id) then Reject(Unauthorized)
      else if auth0Id.value !in users then Reject(NotFound)
      else if users[auth0Id.value] == playlist.owner then Next
      else Reject(Forbidden)
  }

  /** A public playlist passes the gate whoever calls, with or without a
      token. The same gate guards the write routes (update, delete, add,
      remove and reorder tracks), so on a public playlist those are open to
      every authenticated caller, not only to the owner. */
  lemma PublicPlaylistOpenToEveryCaller(playlistId: PlaylistId, playlists: map<PlaylistId, Playlist>,
                                        auth0Id: Option<Auth0Id>, users: map<Auth0Id, UserId>)
    requires playlistId in playlists && playlists[playlistId].isPublic
    ensures CanAccessPlaylist(Some(playlistId), playlists, auth0Id, users) == Next
    ensures CanAccessPlaylist(Some(playlistId), playlists, auth0Id, users)
            == CanAccessPlaylist(Some(playlistId), playlists, None, map[])
  {
  }

  /** Whoever passes the gate on a private playlist is its owner (an
      empty id, which skips the gate, aside). */
  lemma PrivatePlaylistOnlyForOwner(playlistId: PlaylistId, playlists: map<PlaylistId, Playlist>,
                                    auth0Id: Option<Auth0Id>, users: map<Auth0Id, UserId>)
    requires playlistId != "" && playlistId in playlists && !playlists[playlistId].isPublic
    requires CanAccessPlaylist(Some(playlistId), playlists, auth0Id, users) == Next
    ensures auth0Id.Some? && auth0Id.value in users && users[auth0Id.value] == playlists[playlistId].owner
  {
    assert CallerId(auth0Id, users) == Some(playlists[playlistId].owner);
  }

  /** The verdict depends on the playlist only through its visibility and
      owner: editing its title or tracks cannot change who gets through. */
  lemma VerdictIgnoresContents(playlistId: PlaylistId, playlists: map<PlaylistId, Playlist>,
                               p: Playlist, auth0Id: Option<Auth0Id>, users: map<Auth0Id, UserId>)
    requires playlistId in playlists
    requires p.isPublic == playlists[playlistId].isPublic && p.owner == playlists[playlistId].owner
    ensures CanAccessPlaylist(Some(playlistId), playlists[playlistId := p], auth0Id, users)
            == CanAccessPlaylist(Some(playlistId), playlists, auth0Id, users)
  {
  }

  // ---------------------------------------------------------- permissions

  /** `required.every(p => held.includes(p))`. */
  function HasAll(required: seq<string>, held: seq<string>): (b: bool)
    ensures b <==> forall i :: 0 <= i < |required| ==> required[i] in held
  {
    if required == [] then true
    else required[0] in held && HasAll(required[1..], held)
  }

  /** checkPermissions: a missing permission list counts as empty; the
      request passes iff every required permission is held, and is 403
      otherwise. */
  function CheckPermissions(required: seq<string>, permissions: Option<seq<string>>): (v: Verdict)
    ensures v == Next <==> forall p :: p in required ==> p in permissions.GetOr([])
    ensures v != Next ==> v == Reject(Forbidden)
    ensures required == [] ==> v == Next
    ensures permissions.None? ==> (v == Next <==> required == [])
  {
    if HasAll(required, permissions.GetOr([])) then Next else Reject(Forbidden)
  }

  /** Holding more permissions never turns a pass into a refusal. */
  lemma {:induction false} PermissionsMonotone(required: seq<string>, held: seq<string>, more: seq<string>)
    requires CheckPermissions(required, Some(held)) == Next
    ensures CheckPermissions(required, Some(held + more)) == Next
  {
    forall p | p in required ensures p in held + more {
      assert p in held;
    }
  }

  /** The check looks at the required permissions as a set: their order
      and repetitions do not matter. */
  lemma RequirementOrderIrrelevant(r1: seq<string>, r2: seq<string>, permissions: Option<seq<string>>)
    requires forall p :: p in r1 <==> p in r2
    ensures CheckPermissions(r1, permissions) == CheckPermissions(r2, permissions)
  {
  }
}
