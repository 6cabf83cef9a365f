/** Which posts a viewer may see: the per-tier policy, and the store queries
    the feed route actually issues. */
module Visibility {
  import opened Results
  import opened Schema
  import SocialGraph

  /** The visibility policy. Anyone, signed in or not, sees public posts; a
      friends-only post is seen by its author and by viewers who list the
      author as a friend; a private post only by its author. */
  predicate CanView(users: map<UserId, User>, viewer: Option<UserId>, p: Post) {
    match p.privacy
    case Public => true
    case Friends => viewer.Some? && (p.author == viewer.value || SocialGraph.AreFriends(users, viewer.value, p.author))
    case Private => viewer.Some? && p.author == viewer.value
  }

  /** The `$or` query of a signed-in feed: public, or friends-only with the
      author among the viewer's friends plus the viewer, or private with the
      viewer as author. */
  predicate MatchesViewerQuery(viewer: UserId, viewerFriends: seq<UserId>, p: Post)
    ensures p.author == viewer ==> MatchesViewerQuery(viewer, viewerFriends, p)
    ensures MatchesViewerQuery(viewer, viewerFriends, p) && p.author != viewer ==>
              p.privacy == Public || (p.privacy == Friends && p.author in viewerFriends)
  {
    || p.privacy == Public
    || (p.privacy == Friends && p.author in viewerFriends + [viewer])
    || (p.privacy == Private && p.author == viewer)
  }

  /** The query of an anonymous feed. */
  predicate MatchesPublicQuery(p: Post) {
    p.privacy == Public
  }

  /** The query a known viewer's feed issues selects exactly the posts the
      policy lets that viewer see. */
  lemma ViewerQueryIsPolicy(users: map<UserId, User>, viewer: UserId, p: Post)
    requires viewer in users
    ensures MatchesViewerQuery(viewer, users[viewer].friends, p) <==> CanView(users, Some(viewer), p)
  {
    assert p.author in users[viewer].friends + [viewer] <==> p.author in users[viewer].friends || p.author == viewer;
  }

  /** The anonymous query selects exactly the posts the policy shows to
      nobody in particular. */
  lemma PublicQueryIsPolicy(users: map<UserId, User>, p: Post)
    ensures MatchesPublicQuery(p) <==> CanView(users, None, p)
  {
  }

  /** Signing in never hides a post: what an anonymous reader sees, every
      viewer sees. */
  lemma AnonymousSeesLess(users: map<UserId, User>, viewer: UserId, p: Post)
    requires CanView(users, None, p)
    ensures CanView(users, Some(viewer), p)
  {
  }

  /** A private post is visible to its author and to no one else. */
  lemma PrivateOnlyToAuthor(users: map<UserId, User>, viewer: Option<UserId>, p: Post)
    requires p.privacy == Private
    ensures CanView(users, viewer, p) <==> viewer == Some(p.author)
  {
  }

  /** When friendship is symmetric, it does not matter whose friend list the
      policy reads: a friends-only post is visible to the author's friends. */
  lemma FriendsTierSymmetric(users: map<UserId, User>, viewer: UserId, p: Post)
    requires FriendshipSymmetric(users)
    requires p.privacy == Friends && viewer in users && p.author in users
    ensures CanView(users, Some(viewer), p) <==> p.author == viewer || SocialGraph.AreFriends(users, p.author, viewer)
  {
  }

  /** Once `user` accepts `requester`, each sees the other's friends-only
      posts, whether or not a request was pending. */
  lemma AcceptGrantsVisibility(s: Store, user: UserId, requester: UserId, p: Post)
    requires SocialGraph.AcceptFriendRequest(s, user, requester).Ok?
    requires p.privacy == Friends
    ensures var users' := SocialGraph.AcceptFriendRequest(s, user, requester).value.users;
            (p.author == user ==> CanView(users', Some(requester), p))
            && (p.author == requester ==> CanView(users', Some(user), p))
  {
  }

  /** Accepting never takes visibility away: whatever a viewer saw before,
      they still see. */
  lemma AcceptKeepsVisibility(s: Store, user: UserId, requester: UserId, viewer: Option<UserId>, p: Post)
    requires SocialGraph.AcceptFriendRequest(s, user, requester).Ok?
    requires CanView(s.users, viewer, p)
    ensures CanView(SocialGraph.AcceptFriendRequest(s, user, requester).value.users, viewer, p)
  {
    var users' := SocialGraph.AcceptFriendRequest(s, user, requester).value.users;
    if p.privacy == Friends && p.author != viewer.value {
      var v := viewer.value;
      if v != user && v != requester {
        assert users'[v] == s.users[v];
      } else if v == user {
        assert s.users[user].friends <= users'[user].friends;
      }
    }
  }
}
