/** A worked walk through the routes on a four-user store: anonymous and
    signed-in feeds, a friendship that opens a friends-only post, a like and
    an unlike, and a share. */
module Scenarios {
  import opened Results
  import opened Schema
  import opened Visibility
  import SocialGraph
  import Likes
  import Sharing

  const Ann: UserId := 1
  const Ben: UserId := 2
  const Cal: UserId := 3
  const Dee: UserId := 4

  function Member(name: string, friends: seq<UserId>): User {
    User(name, name + "@example.com", friends, [])
  }

  /** Ben and Cal are friends; Ann and Dee have no friends. Ann has a public
      post, Ben a friends-only one and a public one. */
  function Start(): Store {
    var users := map[Ann := Member("ann", []), Ben := Member("ben", [Cal]),
                     Cal := Member("cal", [Ben]), Dee := Member("dee", [])];
    var posts := map[10 := NewPost(10, "hello", None, Ann, [], Public, [], None, 100),
                     20 := NewPost(20, "friends only", None, Ben, [], Friends, [], None, 200),
                     30 := NewPost(30, "look", None, Ben, [], Public, [], None, 300)];
    Store(users, posts)
  }

  /** Anonymous readers see Ann's public post; Ben's friends-only post is
      visible to his friend Cal and hidden from Dee. */
  lemma WalkthroughVisibility()
    ensures var s := Start();
            && CanView(s.users, None, s.posts[10])
            && !CanView(s.users, None, s.posts[20])
            && CanView(s.users, Some(Cal), s.posts[20])
            && !CanView(s.users, Some(Dee), s.posts[20])
  {
    var s := Start();
    assert s.users[Dee].friends == [];
    assert s.users[Cal].friends == [Ben];
  }

  /** Dee asks Ben, Ben accepts, and Dee now sees Ben's friends-only post. */
  lemma WalkthroughFriendship()
    ensures var s1 := SocialGraph.SendFriendRequest(Start(), Dee, Ben);
            && s1.Ok?
            && var s2 := SocialGraph.AcceptFriendRequest(s1.value, Ben, Dee);
            && s2.Ok?
            && CanView(s2.value.users, Some(Dee), s2.value.posts[20])
  {
    var s := Start();
    var s1 := SocialGraph.SendFriendRequest(s, Dee, Ben).value;
    assert s1.posts == s.posts;
    var s2 := SocialGraph.AcceptFriendRequest(s1, Ben, Dee).value;
    assert SocialGraph.AreFriends(s2.users, Dee, Ben);
  }

  /** Cal likes Ben's post and then unlikes it: the counter goes 0, 1, 0. */
  lemma WalkthroughLikes()
    ensures var l1 := Likes.LikePost(Start(), 20, Some(Cal));
            && l1.Ok? && l1.value.posts[20].likes == 1
            && var l2 := Likes.LikePost(l1.value, 20, Some(Cal));
            && l2.Ok? && l2.value.posts[20].likes == 0
  {
    var p := Start().posts[20];
    assert p.likedBy == [] && p.likes == 0;
    Likes.LikeThenUnlike(p, Cal);
  }

  /** Ann shares Ben's public post with the text "nice". */
  lemma WalkthroughShare()
    ensures var sh := Sharing.SharePost(Start(), 30, Some(Ann), "nice", 40, 400);
            && sh.Ok?
            && sh.value.posts[40].content == "nice"
            && sh.value.posts[40].privacy == Friends
            && sh.value.posts[40].originalPost == Some(30)
  {
  }
}
