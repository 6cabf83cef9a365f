/** Every route that writes keeps the store invariants: posts under their own
    ids, like counters equal to distinct likers, shares pointing at stored
    posts, comment authors stored, and friendship symmetric. */
module Invariants {
  import opened Results
  import opened Schema
  import SocialGraph
  import Likes
  import Comments
  import Sharing
  import Posts

  lemma CreatePostKeepsValid(
    s: Store, content: string, image: Option<string>, authorId: UserId,
    taggedUsers: seq<UserId>, privacy: string, newId: PostId, now: Time)
    requires newId !in s.posts && Valid(s)
    requires Posts.CreatePost(s, content, image, authorId, taggedUsers, privacy, newId, now).Ok?
    ensures Valid(Posts.CreatePost(s, content, image, authorId, taggedUsers, privacy, newId, now).value)
  {
  }

  lemma SharePostKeepsValid(s: Store, originalId: PostId, userId: Option<UserId>, comment: string, newId: PostId, now: Time)
    requires newId !in s.posts && Valid(s)
    requires Sharing.SharePost(s, originalId, userId, comment, newId, now).Ok?
    ensures Valid(Sharing.SharePost(s, originalId, userId, comment, newId, now).value)
  {
  }

  lemma LikePostKeepsValid(s: Store, postId: PostId, userId: Option<UserId>)
    requires Valid(s)
    requires Likes.LikePost(s, postId, userId).Ok?
    ensures Valid(Likes.LikePost(s, postId, userId).value)
  {
    Likes.ToggleLikeKeepsConsistency(s.posts[postId], userId.value);
  }

  lemma AddCommentKeepsValid(s: Store, postId: PostId, content: string, authorId: Option<UserId>, now: Time)
    requires Valid(s)
    requires Comments.AddComment(s, postId, content, authorId, now).Ok?
    ensures Valid(Comments.AddComment(s, postId, content, authorId, now).value)
  {
  }

  lemma SendFriendRequestKeepsValid(s: Store, requester: UserId, target: UserId)
    requires Valid(s)
    requires SocialGraph.SendFriendRequest(s, requester, target).Ok?
    ensures Valid(SocialGraph.SendFriendRequest(s, requester, target).value)
  {
    SocialGraph.SendFriendRequestKeepsSymmetry(s, requester, target);
  }

  lemma AcceptFriendRequestKeepsValid(s: Store, user: UserId, requester: UserId)
    requires Valid(s)
    requires SocialGraph.AcceptFriendRequest(s, user, requester).Ok?
    ensures Valid(SocialGraph.AcceptFriendRequest(s, user, requester).value)
  {
    SocialGraph.AcceptFriendRequestKeepsSymmetry(s, user, requester);
  }
}
