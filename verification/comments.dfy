/** The add-comment route: validation, then an append at the end of the
    post's comment list. */
module Comments {
  import opened Results
  import opened Text
  import opened Schema

  /** POST /api/posts/:id/comments. Blank text, a missing author id, an
      unknown post and an unknown author are refused in that order, with
      nothing changed. Otherwise exactly one comment, holding the trimmed text,
      the author and the time, is added after the existing ones, which keep
      their order; no other field or document changes. */
  function AddComment(s: Store, postId: PostId, content: string, authorId: Option<UserId>, now: Time): (r: Result<Store>)
    ensures IsBlank(content) ==> r == Err(EmptyComment)
    ensures !IsBlank(content) && authorId.None? ==> r == Err(MissingAuthorId)
    ensures !IsBlank(content) && authorId.Some? && postId !in s.posts ==> r == Err(PostNotFound)
    ensures !IsBlank(content) && authorId.Some? && postId in s.posts && authorId.value !in s.users ==>
              r == Err(UnknownAuthor)
    ensures r.Ok? <==> !IsBlank(content) && authorId.Some? && postId in s.posts && authorId.value in s.users
    ensures r.Ok? ==>
              && r.value.users == s.users
              && r.value.posts.Keys == s.posts.Keys
              && (forall k | k in s.posts && k != postId :: r.value.posts[k] == s.posts[k])
    ensures r.Ok? ==>
              var before := s.posts[postId];
              var after := r.value.posts[postId];
              && after == before.(comments := after.comments)
              && |after.comments| == |before.comments| + 1
              && before.comments <= after.comments
              && after.comments[|before.comments|] == Comment(Trim(content), authorId.value, now)
              && after.comments[|before.comments|].content != []
  {
    if Trim(content) == [] then Err(EmptyComment)
    else if authorId.None? then Err(MissingAuthorId)
    else if postId !in s.posts then Err(PostNotFound)
    else if authorId.value !in s.users then Err(UnknownAuthor)
    else
      var p := s.posts[postId];
      var c := Comment(Trim(content), authorId.value, now);
      Ok(s.(posts := s.posts[postId := p.(comments := p.comments + [c])]))
  }
}
