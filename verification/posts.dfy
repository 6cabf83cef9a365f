/** The create-post route. */
module Posts {
  import opened Results
  import opened Schema

  /** POST /api/posts. A privacy string other than the three tier names is
      refused with nothing stored. Otherwise a post with the given fields, the
      parsed tier, no likes, no likers, no comments, no shares and no original
      is stored under `newId`, and nothing else changes. The author id is not
      looked up. `newId` is the fresh id the store assigns. */
  function CreatePost(
    s: Store, content: string, image: Option<string>, authorId: UserId,
    taggedUsers: seq<UserId>, privacy: string, newId: PostId, now: Time): (r: Result<Store>)
    requires newId !in s.posts
    ensures r.Err? <==> privacy !in {"public", "friends", "private"}
    ensures r.Err? ==> r.error == InvalidPrivacy
    ensures r.Ok? ==>
              && r.value.users == s.users
              && r.value.posts.Keys == s.posts.Keys + {newId}
              && (forall k | k in s.posts :: r.value.posts[k] == s.posts[k])
    ensures r.Ok? ==>
              var p := r.value.posts[newId];
              && p.id == newId
              && PrivacyName(p.privacy) == privacy
              && p.content == content && p.image == image
              && p.author == authorId && p.taggedUsers == taggedUsers
              && p.likes == 0 && p.likedBy == [] && p.comments == []
              && p.sharedBy == [] && p.originalPost == None
              && p.createdAt == now
  {
    match ParsePrivacy(privacy)
    case None => Err(InvalidPrivacy)
    case Some(tier) =>
      Ok(s.(posts := s.posts[newId := NewPost(newId, content, image, authorId, taggedUsers, tier, [], None, now)]))
  }
}
