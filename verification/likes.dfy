/** The like route: a two-state toggle per (post, user) that keeps the like
    counter and the liker list in step. */
module Likes {
  import opened Results
  import opened Lists
  import opened Schema

  /** Flips `u`'s like on `p`. When `u` is not a liker, `u` is appended and the
      counter goes up by one; otherwise the first entry of `u` is removed,
      every other liker keeps their entry and order, and the counter goes down
      by one.
      No other field of the post changes. */
  function ToggleLike(p: Post, u: UserId): (r: Post)
    ensures r == p.(likes := r.likes, likedBy := r.likedBy)
    ensures u !in p.likedBy ==> r.likedBy == p.likedBy + [u] && r.likes == p.likes + 1
    ensures u in p.likedBy ==>
              && r.likes == p.likes - 1
              && r.likedBy == RemoveAt(p.likedBy, IndexOf(p.likedBy, u))
              && multiset(r.likedBy) == multiset(p.likedBy) - multiset{u}
  {
    var i := IndexOf(p.likedBy, u);
    if i == -1 then p.(likes := p.likes + 1, likedBy := p.likedBy + [u])
    else p.(likes := p.likes - 1, likedBy := RemoveAt(p.likedBy, i))
  }

  /** On a consistent post the toggle flips `u` between liked and not liked,
      leaves every other user's state alone, and keeps the counter equal to
      the number of distinct likers. */
  lemma ToggleLikeKeepsConsistency(p: Post, u: UserId)
    requires LikesConsistent(p)
    ensures LikesConsistent(ToggleLike(p, u))
    ensures u in ToggleLike(p, u).likedBy <==> u !in p.likedBy
    ensures forall v | v != u :: v in ToggleLike(p, u).likedBy <==> v in p.likedBy
  {
    if u in p.likedBy {
      RemoveFirstOfDistinct(p.likedBy, u);
    } else {
      SnocNoDup(p.likedBy, u);
    }
  }

  /** A like followed by an unlike of a user who had not liked the post
      restores it exactly: the unlike removes the entry the like appended. */
  lemma LikeThenUnlike(p: Post, u: UserId)
    requires u !in p.likedBy
    ensures ToggleLike(ToggleLike(p, u), u) == p
  {
    var l := p.likedBy + [u];
    assert l[..|p.likedBy|] == p.likedBy;
    assert IndexOf(l, u) == |p.likedBy|;
    assert RemoveAt(l, |p.likedBy|) == p.likedBy;
  }

  /** Toggling twice restores the counter and the set of likers; when `u` had
      not liked the post, it restores the post exactly. */
  lemma ToggleLikeTwice(p: Post, u: UserId)
    requires LikesConsistent(p)
    ensures ToggleLike(ToggleLike(p, u), u).likes == p.likes
    ensures forall v :: v in ToggleLike(ToggleLike(p, u), u).likedBy <==> v in p.likedBy
    ensures u !in p.likedBy ==> ToggleLike(ToggleLike(p, u), u) == p
  {
    if u !in p.likedBy {
      LikeThenUnlike(p, u);
    } else {
      var q := ToggleLike(p, u);
      ToggleLikeKeepsConsistency(p, u);
      ToggleLikeKeepsConsistency(q, u);
    }
  }

  /** POST /api/posts/:id/like. A missing user id, an unknown post and an
      unknown user are refused in that order, with nothing changed; otherwise
      the post is toggled for the user and every other document is kept. */
  function LikePost(s: Store, postId: PostId, userId: Option<UserId>): (r: Result<Store>)
    ensures userId.None? ==> r == Err(MissingUserId)
    ensures userId.Some? && postId !in s.posts ==> r == Err(PostNotFound)
    ensures userId.Some? && postId in s.posts && userId.value !in s.users ==> r == Err(UnknownUser)
    ensures r.Ok? <==> userId.Some? && postId in s.posts && userId.value in s.users
    ensures r.Ok? ==>
              && r.value.users == s.users
              && r.value.posts.Keys == s.posts.Keys
              && (forall k | k in s.posts && k != postId :: r.value.posts[k] == s.posts[k])
              && r.value.posts[postId] == ToggleLike(s.posts[postId], userId.value)
  {
    if userId.None? then Err(MissingUserId)
    else if postId !in s.posts then Err(PostNotFound)
    else if userId.value !in s.users then Err(UnknownUser)
    else Ok(s.(posts := s.posts[postId := ToggleLike(s.posts[postId], userId.value)]))
  }
}
