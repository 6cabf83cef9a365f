/** The share route: a share forks a new post that points back at the
    original. */
module Sharing {
  import opened Results
  import opened Schema

  /** The text a share post carries when the sharer wrote nothing. */
  const DefaultShareContent: string := "Shared a post"

  /** POST /api/posts/:id/share. A missing user id, an unknown original and an
      unknown sharer are refused in that order, with nothing created.
      Otherwise a new post is stored under `newId`, authored by the sharer,
      holding the sharer's text or the default phrase, friends-only whatever
      the original's tier, pointing at the original and recording one share;
      every existing post, the original included, and every user is kept as
      it was. `newId` is the fresh id the store assigns. */
  function SharePost(s: Store, originalId: PostId, userId: Option<UserId>, comment: string, newId: PostId, now: Time): (r: Result<Store>)
    requires newId !in s.posts
    ensures userId.None? ==> r == Err(MissingUserId)
    ensures userId.Some? && originalId !in s.posts ==> r == Err(OriginalNotFound)
    ensures userId.Some? && originalId in s.posts && userId.value !in s.users ==> r == Err(UnknownUser)
    ensures r.Ok? <==> userId.Some? && originalId in s.posts && userId.value in s.users
    ensures r.Ok? ==>
              && r.value.users == s.users
              && r.value.posts.Keys == s.posts.Keys + {newId}
              && (forall k | k in s.posts :: r.value.posts[k] == s.posts[k])
    ensures r.Ok? ==>
              var q := r.value.posts[newId];
              && q.id == newId
              && q.author == userId.value
              && q.content == (if comment == [] then DefaultShareContent else comment)
              && q.privacy == Friends
              && q.originalPost == Some(originalId)
              && q.sharedBy == [Share(userId.value, comment)]
              && q.image == None && q.taggedUsers == []
              && q.likes == 0 && q.likedBy == [] && q.comments == []
              && q.createdAt == now
  {
    if userId.None? then Err(MissingUserId)
    else if originalId !in s.posts then Err(OriginalNotFound)
    else if userId.value !in s.users then Err(UnknownUser)
    else
      var content := if comment == [] then DefaultShareContent else comment;
      var q := NewPost(newId, content, None, userId.value, [], Friends,
                       [Share(userId.value, comment)], Some(originalId), now);
      Ok(s.(posts := s.posts[newId := q]))
  }

  /** Sharing does not ask whether the sharer may see the original: a private
      post of someone else can be shared, and the share is friends-only. */
  lemma ShareIgnoresOriginalVisibility(s: Store, originalId: PostId, sharer: UserId, newId: PostId, now: Time)
    requires newId !in s.posts
    requires originalId in s.posts && sharer in s.users
    requires s.posts[originalId].privacy == Private && s.posts[originalId].author != sharer
    ensures SharePost(s, originalId, Some(sharer), [], newId, now).Ok?
    ensures SharePost(s, originalId, Some(sharer), [], newId, now).value.posts[newId].privacy == Friends
  {
  }

  /** On a store whose shares all point at stored posts, no post refers to the
      new share, so a share can never close a cycle of originals. */
  lemma ShareIsNotReferenced(s: Store, originalId: PostId, userId: Option<UserId>, comment: string, newId: PostId, now: Time)
    requires newId !in s.posts
    requires ProvenanceClosed(s.posts)
    requires SharePost(s, originalId, userId, comment, newId, now).Ok?
    ensures var posts' := SharePost(s, originalId, userId, comment, newId, now).value.posts;
            ProvenanceClosed(posts')
            && forall k | k in posts' :: posts'[k].originalPost != Some(newId)
  {
  }
}
