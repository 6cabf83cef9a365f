/** The `User` and `Post` document shapes, their defaults, and the
    invariants a well-formed store keeps. */
module Schema {
  import opened Results
  import opened Lists

  /** Document identifiers are opaque; naturals stand for them. */
  type UserId = nat
  type PostId = nat

  /** Milliseconds since the epoch, supplied by the caller in place of the clock. */
  type Time = nat

  /** The three visibility tiers a post may carry. */
  datatype Privacy = Public | Friends | Private

  /** The string each tier is sent and stored as. */
  function PrivacyName(p: Privacy): string {
    match p
    case Public => "public"
    case Friends => "friends"
    case Private => "private"
  }

  /** Reads a requested privacy string: only the three tier names are
      accepted, each for its own tier; any other string is refused. */
  function ParsePrivacy(s: string): (r: Option<Privacy>)
    ensures r.Some? <==> s in {"public", "friends", "private"}
    ensures r.Some? ==> PrivacyName(r.value) == s
    ensures forall p: Privacy :: PrivacyName(p) == s ==> r == Some(p)
  {
    if s == "public" then Some(Public)
    else if s == "friends" then Some(Friends)
    else if s == "private" then Some(Private)
    else None
  }

  /** A user record, without the credential, pictures and location the feed
      logic never reads. `friends` and `friendRequests` are arrays of ids. */
  datatype User = User(
    name: string,
    email: string,
    friends: seq<UserId>,
    friendRequests: seq<UserId>)

  datatype Comment = Comment(content: string, author: UserId, createdAt: Time)

  datatype Share = Share(user: UserId, comment: string)

  datatype Post = Post(
    id: PostId,
    content: string,
    image: Option<string>,
    author: UserId,
    taggedUsers: seq<UserId>,
    privacy: Privacy,
    likes: int,
    likedBy: seq<UserId>,
    comments: seq<Comment>,
    sharedBy: seq<Share>,
    originalPost: Option<PostId>,
    createdAt: Time)

  /** The two collections, keyed by document id. */
  datatype Store = Store(users: map<UserId, User>, posts: map<PostId, Post>)

  /** A freshly constructed post document: the given fields, and the schema
      defaults for the counters and embedded lists. */
  function NewPost(
    id: PostId, content: string, image: Option<string>, author: UserId,
    taggedUsers: seq<UserId>, privacy: Privacy, sharedBy: seq<Share>,
    originalPost: Option<PostId>, now: Time): (p: Post)
    ensures p.likes == 0 && p.likedBy == [] && p.comments == []
    ensures p.id == id && p.author == author && p.privacy == privacy && p.createdAt == now
  {
    Post(id, content, image, author, taggedUsers, privacy, 0, [], [], sharedBy, originalPost, now)
  }

  /** The like counter equals the number of likers, and no user likes twice. */
  predicate LikesConsistent(p: Post) {
    p.likes == |p.likedBy| && NoDup(p.likedBy)
  }

  /** Every post is stored under its own id. */
  ghost predicate WellKeyed(posts: map<PostId, Post>) {
    forall k | k in posts :: posts[k].id == k
  }

  /** Every share points at a stored post. */
  ghost predicate ProvenanceClosed(posts: map<PostId, Post>) {
    forall k | k in posts && posts[k].originalPost.Some? :: posts[k].originalPost.value in posts
  }

  /** Every comment's author is a stored user. */
  ghost predicate CommentAuthorsKnown(s: Store) {
    forall k, i | k in s.posts && 0 <= i < |s.posts[k].comments| :: s.posts[k].comments[i].author in s.users
  }

  /** Among stored users, `b` lists `a` as a friend exactly when `a` lists `b`. */
  ghost predicate FriendshipSymmetric(users: map<UserId, User>) {
    forall a, b | a in users && b in users :: b in users[a].friends <==> a in users[b].friends
  }

  /** The invariants every operation of the model keeps. */
  ghost predicate Valid(s: Store) {
    && WellKeyed(s.posts)
    && (forall k | k in s.posts :: LikesConsistent(s.posts[k]))
    && ProvenanceClosed(s.posts)
    && CommentAuthorsKnown(s)
    && FriendshipSymmetric(s.users)
  }
}
